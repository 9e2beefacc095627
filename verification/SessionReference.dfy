/** The incremental session checker compared with a declarative reading of the
    finished trace. The reference looks at pairs of trace positions only; it
    knows no stack. */
module SessionReference {
  import opened Wrappers
  import opened ClassModel
  import opened Contracts
  import opened ContractSession

  datatype Call =
    | EnterCall(operation: Key, receiver: Option<string>, kind: EntryKind)
    | ExitCall(id: InvocationId)
    | GapCall(message: string)

  function Step(operations: Operations, roots: set<Key>, state: State, call: Call): State {
    match call
    case EnterCall(operation, receiver, kind) => AfterEnter(operations, roots, state, operation, receiver, kind)
    case ExitCall(id) => AfterExit(state, id)
    case GapCall(message) => AfterGap(state, Reported(message))
  }

  /** The state after any sequence of session calls. */
  ghost function Run(operations: Operations, roots: set<Key>, start: State, calls: seq<Call>): State {
    if calls == [] then start
    else Step(operations, roots, Run(operations, roots, start, calls[..|calls| - 1]), calls[|calls| - 1])
  }

  // ---------------------------------------------------------------- replaying a trace

  function ReplayEvent(frames: seq<Invocation>, event: Event): seq<Invocation> {
    match event
    case Enter(invocation) => frames + [invocation]
    case Exit(id) => if IsActiveTop(frames, id) then frames[..|frames| - 1] else frames
  }

  ghost function Replay(trace: seq<Event>): seq<Invocation> {
    if trace == [] then [] else ReplayEvent(Replay(trace[..|trace| - 1]), trace[|trace| - 1])
  }

  // ---------------------------------------------------------------- the reference

  /** The entry at `i` is still open when event `j` happens. */
  ghost predicate OpenAt(trace: seq<Event>, i: int, j: int) {
    && 0 <= i < j <= |trace| && trace[i].Enter?
    && forall k :: i < k < j ==> trace[k] != Exit(trace[i].invocation.id)
  }

  ghost predicate Innermost(trace: seq<Event>, i: int, j: int) {
    OpenAt(trace, i, j) && forall other :: OpenAt(trace, other, j) ==> other <= i
  }

  predicate SameReceiver(a: Invocation, b: Invocation) {
    a.receiver.Some? && b.receiver.Some? && a.receiver == b.receiver
  }

  /** The caller's contract allows the request, on the same receiver where that is required. */
  ghost predicate EdgePermitted(operations: Operations, caller: Invocation, callee: Invocation) {
    caller.operation in operations ==>
      var contract := operations[caller.operation];
      || (exists rule :: rule in contract.invokes && callee.operation in rule.targets && !rule.sameReceiver)
      || (((exists rule :: rule in contract.invokes && callee.operation in rule.targets)
            || callee.operation in contract.dispatches)
          && SameReceiver(caller, callee))
  }

  /** No prohibition of an enclosing invocation applies; receiver-bound ones are
      excused only by known, different receivers. */
  ghost predicate PairRespected(operations: Operations, ancestor: Invocation, invocation: Invocation) {
    ancestor.operation in operations ==>
      forall rule :: rule in operations[ancestor.operation].prohibits && invocation.operation in rule.targets ==>
        rule.sameReceiver && ancestor.receiver.Some? && invocation.receiver.Some?
          && ancestor.receiver != invocation.receiver
  }

  ghost predicate RequestPermitted(operations: Operations, roots: set<Key>, trace: seq<Event>, j: nat)
    requires j < |trace| && trace[j].Enter?
  {
    && ((forall i :: !OpenAt(trace, i, j)) ==> trace[j].invocation.operation in roots)
    && (forall i :: Innermost(trace, i, j) ==> EdgePermitted(operations, trace[i].invocation, trace[j].invocation))
  }

  ghost predicate EntryConforms(operations: Operations, roots: set<Key>, trace: seq<Event>, j: nat)
    requires j < |trace| && trace[j].Enter?
  {
    var invocation := trace[j].invocation;
    && invocation.operation in operations
    && (invocation.kind.Request? ==> RequestPermitted(operations, roots, trace, j))
    && (forall i :: OpenAt(trace, i, j) ==> PairRespected(operations, trace[i].invocation, invocation))
  }

  ghost predicate EntriesConform(operations: Operations, roots: set<Key>, trace: seq<Event>) {
    forall j :: 0 <= j < |trace| && trace[j].Enter? ==> EntryConforms(operations, roots, trace, j)
  }

  ghost predicate Balanced(trace: seq<Event>) {
    forall i :: 0 <= i < |trace| && trace[i].Enter? ==>
      exists k :: i < k < |trace| && trace[k] == Exit(trace[i].invocation.id)
  }

  ghost predicate NoReportedGap(calls: seq<Call>) {
    forall n :: 0 <= n < |calls| ==> !calls[n].GapCall?
  }

  ghost function ExitCalls(calls: seq<Call>): nat {
    if calls == [] then 0 else ExitCalls(calls[..|calls| - 1]) + if calls[|calls| - 1].ExitCall? then 1 else 0
  }

  ghost function ExitEvents(trace: seq<Event>): nat {
    if trace == [] then 0 else ExitEvents(trace[..|trace| - 1]) + if trace[|trace| - 1].Exit? then 1 else 0
  }

  /** What was entered, in order. */
  ghost function EnterCalls(calls: seq<Call>): seq<(Key, Option<string>, EntryKind)> {
    if calls == [] then []
    else
      var last := calls[|calls| - 1];
      EnterCalls(calls[..|calls| - 1]) + if last.EnterCall? then [(last.operation, last.receiver, last.kind)] else []
  }

  ghost function EnterEvents(trace: seq<Event>): seq<(Key, Option<string>, EntryKind)> {
    if trace == [] then []
    else
      var last := trace[|trace| - 1];
      EnterEvents(trace[..|trace| - 1]) +
      if last.Enter? then [(last.invocation.operation, last.invocation.receiver, last.invocation.kind)] else []
  }

  ghost predicate Conforms(operations: Operations, roots: set<Key>, calls: seq<Call>, trace: seq<Event>) {
    && roots <= operations.Keys
    && NoReportedGap(calls)
    && ExitEvents(trace) == ExitCalls(calls)
    && Balanced(trace)
    && EntriesConform(operations, roots, trace)
  }

  // ---------------------------------------------------------------- what every step keeps

  ghost predicate IdsOrdered(trace: seq<Event>, nextId: nat) {
    && (forall i :: 0 <= i < |trace| ==> EventId(trace[i]) < nextId)
    && (forall i, j :: 0 <= i < j < |trace| && trace[i].Enter? && trace[j].Enter? ==>
          EventId(trace[i]) < EventId(trace[j]))
  }

  function EventId(event: Event): nat {
    match event
    case Enter(invocation) => invocation.id
    case Exit(id) => id
  }

  ghost predicate Positioned(trace: seq<Event>, frame: Invocation) {
    exists i :: OpenAt(trace, i, |trace|) && trace[i].invocation == frame
  }

  /** The active frames are exactly the entries still open, oldest first. */
  ghost predicate FramesMatch(active: seq<Invocation>, trace: seq<Event>) {
    && (forall a, b :: 0 <= a < b < |active| ==> active[a].id < active[b].id)
    && (forall a :: 0 <= a < |active| ==> Positioned(trace, active[a]))
    && (forall i :: OpenAt(trace, i, |trace|) ==> trace[i].invocation in active)
  }

  ghost predicate Sound(state: State) {
    && IdsOrdered(state.trace, state.nextId)
    && FramesMatch(state.active, state.trace)
    && Replay(state.trace) == state.active
  }

  lemma OpenAtPrefix(trace: seq<Event>, event: Event, i: int, j: int)
    requires j <= |trace|
    ensures OpenAt(trace + [event], i, j) <==> OpenAt(trace, i, j)
  {
    var longer := trace + [event];
    assert forall k :: 0 <= k < |trace| ==> longer[k] == trace[k];
  }

  lemma OpenAfterEvent(trace: seq<Event>, event: Event, i: int)
    ensures OpenAt(trace + [event], i, |trace| + 1) <==>
      || (OpenAt(trace, i, |trace|) && event != Exit(trace[i].invocation.id))
      || (i == |trace| && event.Enter?)
  {
    var longer := trace + [event];
    assert longer[|trace|] == event;
    assert forall k :: 0 <= k < |trace| ==> longer[k] == trace[k];
  }

  lemma SoundEnter(state: State, invocation: Invocation)
    requires Sound(state) && invocation.id == state.nextId
    ensures FramesMatch(state.active + [invocation], state.trace + [Enter(invocation)])
    ensures IdsOrdered(state.trace + [Enter(invocation)], state.nextId + 1)
  {
    var event := Enter(invocation);
    var trace := state.trace + [event];
    var active := state.active + [invocation];
    forall a | 0 <= a < |active|
      ensures Positioned(trace, active[a])
      ensures a < |state.active| ==> active[a].id < invocation.id
    {
      if a < |state.active| {
        assert Positioned(state.trace, state.active[a]);
        var i :| OpenAt(state.trace, i, |state.trace|) && state.trace[i].invocation == state.active[a];
        OpenAfterEvent(state.trace, event, i);
        assert EventId(state.trace[i]) < state.nextId;
      } else {
        OpenAfterEvent(state.trace, event, |state.trace|);
      }
    }
    forall i | OpenAt(trace, i, |trace|)
      ensures trace[i].invocation in active
    {
      OpenAfterEvent(state.trace, event, i);
    }
  }

  lemma SoundExitIds(state: State, id: InvocationId)
    requires Sound(state) && IsActiveTop(state.active, id)
    ensures IdsOrdered(state.trace + [Exit(id)], state.nextId)
  {
    var top := state.active[|state.active| - 1];
    assert Positioned(state.trace, top);
    var t :| OpenAt(state.trace, t, |state.trace|) && state.trace[t].invocation == top;
    assert EventId(state.trace[t]) < state.nextId;
  }

  lemma ExitKeepsPosition(state: State, id: InvocationId, a: nat)
    requires FramesMatch(state.active, state.trace) && IsActiveTop(state.active, id) && a < |state.active| - 1
    ensures Positioned(state.trace + [Exit(id)], state.active[a])
  {
    assert Positioned(state.trace, state.active[a]);
    var i :| OpenAt(state.trace, i, |state.trace|) && state.trace[i].invocation == state.active[a];
    assert state.active[a].id < state.active[|state.active| - 1].id;
    OpenAfterEvent(state.trace, Exit(id), i);
  }

  lemma SoundExit(state: State, id: InvocationId)
    requires Sound(state) && IsActiveTop(state.active, id)
    ensures FramesMatch(state.active[..|state.active| - 1], state.trace + [Exit(id)])
  {
    hide IdsOrdered, Replay, Positioned;
    var trace := state.trace + [Exit(id)];
    var top := |state.active| - 1;
    var active := state.active[..top];
    forall a | 0 <= a < |active|
      ensures Positioned(trace, active[a])
    {
      ExitKeepsPosition(state, id, a);
    }
    forall i | OpenAt(trace, i, |trace|)
      ensures trace[i].invocation in active
    {
      OpenAfterEvent(state.trace, Exit(id), i);
      var a :| 0 <= a < |state.active| && state.active[a] == trace[i].invocation;
      assert a < top;
      assert active[a] == trace[i].invocation;
    }
  }

  lemma SoundStep(operations: Operations, roots: set<Key>, state: State, call: Call)
    requires Sound(state)
    ensures Sound(Step(operations, roots, state, call))
  {
    hide EntryCheck, FramesMatch, IdsOrdered;
    match call
    case EnterCall(operation, receiver, kind) =>
      var invocation := Entered(state, operation, receiver, kind);
      SoundEnter(state, invocation);
      assert (state.trace + [Enter(invocation)])[..|state.trace|] == state.trace;
    case ExitCall(id) =>
      if IsActiveTop(state.active, id) {
        SoundExit(state, id);
        SoundExitIds(state, id);
        assert (state.trace + [Exit(id)])[..|state.trace|] == state.trace;
      }
    case GapCall(message) =>
  }

  /** Replaying the trace rebuilds the active frames, in every reachable state. */
  lemma {:induction false} RunIsSound(operations: Operations, roots: set<Key>, start: State, calls: seq<Call>)
    requires Initial(operations, roots, start)
    ensures Sound(Run(operations, roots, start, calls))
  {
    if calls != [] {
      RunIsSound(operations, roots, start, calls[..|calls| - 1]);
      SoundStep(operations, roots, Run(operations, roots, start, calls[..|calls| - 1]), calls[|calls| - 1]);
    }
  }

  ghost predicate Recorded(state: State, calls: seq<Call>) {
    && EnterEvents(state.trace) == EnterCalls(calls)
    && state.nextId == 1 + |EnterCalls(calls)|
    && ExitEvents(state.trace) <= ExitCalls(calls)
    && state.checkedRequests + state.validationContexts == |EnterCalls(calls)|
  }

  lemma RecordedStep(operations: Operations, roots: set<Key>, state: State, calls: seq<Call>, call: Call)
    requires Recorded(state, calls)
    ensures Recorded(Step(operations, roots, state, call), calls + [call])
  {
    hide EntryCheck;
    assert (calls + [call])[..|calls|] == calls;
    match call
    case EnterCall(operation, receiver, kind) =>
      assert (state.trace + [Enter(Entered(state, operation, receiver, kind))])[..|state.trace|] == state.trace;
    case ExitCall(id) =>
      assert (state.trace + [Exit(id)])[..|state.trace|] == state.trace;
    case GapCall(message) =>
  }

  /** The trace records every entry and every matched exit, in order. */
  lemma {:induction false} TraceRecordsCalls(operations: Operations, roots: set<Key>, start: State, calls: seq<Call>)
    requires Initial(operations, roots, start)
    ensures Recorded(Run(operations, roots, start, calls), calls)
  {
    if calls != [] {
      hide Step, Recorded;
      var front := calls[..|calls| - 1];
      TraceRecordsCalls(operations, roots, start, front);
      RecordedStep(operations, roots, Run(operations, roots, start, front), front, calls[|calls| - 1]);
      assert calls == front + [calls[|calls| - 1]];
    }
  }

  // ---------------------------------------------------------------- one entry, both ways

  lemma EmptyFindings(a: Findings, b: Findings)
    ensures a.Then(b).Clean() <==> a.Clean() && b.Clean()
  {
    assert a.violations + b.violations == [] <==> a.violations == [] && b.violations == [];
    assert a.gaps + b.gaps == [] <==> a.gaps == [] && b.gaps == [];
  }

  lemma CallCleanIff(operations: Operations, active: seq<Invocation>, caller: Invocation, callee: Invocation)
    requires caller.operation in operations
    ensures CallCheck(operations[caller.operation], active, caller, callee).Clean()
       <==> EdgePermitted(operations, caller, callee)
  {
    var contract := operations[caller.operation];
    var permissions := Targeting(contract.invokes, callee.operation);
    assert Unrestricted(permissions)
      <==> exists rule :: rule in contract.invokes && callee.operation in rule.targets && !rule.sameReceiver by {
      if exists rule :: rule in contract.invokes && callee.operation in rule.targets && !rule.sameReceiver {
        var rule :| rule in contract.invokes && callee.operation in rule.targets && !rule.sameReceiver;
        assert rule in permissions;
      }
      if Unrestricted(permissions) {
        var i :| 0 <= i < |permissions| && !permissions[i].sameReceiver;
        assert permissions[i] in permissions;
      }
    }
    assert permissions != [] <==> exists rule :: rule in contract.invokes && callee.operation in rule.targets by {
      if permissions != [] {
        assert permissions[0] in permissions;
      }
    }
  }

  ghost predicate RestrictionRespected(restriction: Restriction, invocation: Invocation) {
    && restriction.rule.sameReceiver
    && restriction.ancestor.receiver.Some? && invocation.receiver.Some?
         && restriction.ancestor.receiver != invocation.receiver
  }

  lemma RestrictionCleanIff(active: seq<Invocation>, restriction: Restriction, invocation: Invocation)
    ensures RestrictionCheck(active, restriction, invocation).Clean() <==> RestrictionRespected(restriction, invocation)
  {
    assert NO_FINDINGS.violations == [] && NO_FINDINGS.gaps == [];
  }

  lemma {:induction false} RestrictionsCleanIff(active: seq<Invocation>, restrictions: seq<Restriction>,
                                                invocation: Invocation)
    ensures RestrictionsCheck(active, restrictions, invocation).Clean()
       <==> forall r :: r in restrictions ==> RestrictionRespected(r, invocation)
  {
    if restrictions != [] {
      var front, last := restrictions[..|restrictions| - 1], restrictions[|restrictions| - 1];
      RestrictionsCleanIff(active, front, invocation);
      RestrictionCleanIff(active, last, invocation);
      EmptyFindings(RestrictionsCheck(active, front, invocation), RestrictionCheck(active, last, invocation));
      hide RestrictionCheck, RestrictionRespected, Findings.Clean, Findings.Then;
      assert forall r :: r in restrictions <==> r in front || r == last by {
        assert restrictions == front + [last];
      }
    } else {
      assert NO_FINDINGS.Clean();
    }
  }

  lemma {:induction false} RestrictionsAre(operations: Operations, active: seq<Invocation>, operation: Key,
                                           r: Restriction)
    ensures r in Restrictions(operations, active, operation) <==>
      r.ancestor in active && r.ancestor.operation in operations
      && r.rule in operations[r.ancestor.operation].prohibits && operation in r.rule.targets
  {
    if active != [] {
      var front, last := active[..|active| - 1], active[|active| - 1];
      RestrictionsAre(operations, front, operation, r);
      assert active == front + [last];
      if last.operation in operations {
        var rules := Targeting(operations[last.operation].prohibits, operation);
        var own := Restrict(last, rules);
        assert r in own <==> r.ancestor == last && r.rule in rules by {
          if r.ancestor == last && r.rule in rules {
            var i :| 0 <= i < |rules| && rules[i] == r.rule;
            assert own[i] == r;
          }
        }
      }
    }
  }

  lemma ProhibitionCleanIff(operations: Operations, active: seq<Invocation>, invocation: Invocation)
    ensures ProhibitionCheck(operations, active, invocation).Clean()
       <==> forall frame :: frame in active ==> PairRespected(operations, frame, invocation)
  {
    hide RestrictionsCheck, Restrictions;
    var restrictions := Restrictions(operations, active, invocation.operation);
    RestrictionsCleanIff(active, restrictions, invocation);
    forall r {
      RestrictionsAre(operations, active, invocation.operation, r);
    }
    if forall r :: r in restrictions ==> RestrictionRespected(r, invocation) {
      forall frame, rule | frame in active && frame.operation in operations
                           && rule in operations[frame.operation].prohibits && invocation.operation in rule.targets
        ensures RestrictionRespected(Restriction(frame, rule), invocation)
      {
        assert Restriction(frame, rule) in restrictions;
      }
    }
    if forall frame :: frame in active ==> PairRespected(operations, frame, invocation) {
      forall r | r in restrictions
        ensures RestrictionRespected(r, invocation)
      {
        assert PairRespected(operations, r.ancestor, invocation);
      }
    }
  }

  /** The last active frame is the innermost entry still open. */
  lemma TopIsInnermost(state: State, i: int)
    requires Sound(state) && OpenAt(state.trace, i, |state.trace|)
    ensures state.active != []
    ensures Innermost(state.trace, i, |state.trace|) <==> state.trace[i].invocation == state.active[|state.active| - 1]
  {
    hide Replay;
    var n := |state.trace|;
    var top := state.active[|state.active| - 1];
    assert Positioned(state.trace, top);
    var t :| OpenAt(state.trace, t, n) && state.trace[t].invocation == top;
    forall other | OpenAt(state.trace, other, n)
      ensures other <= t
    {
      var a :| 0 <= a < |state.active| && state.active[a] == state.trace[other].invocation;
      assert EventId(state.trace[other]) <= EventId(state.trace[t]);
    }
  }

  lemma NothingOpen(state: State, event: Event, i: int)
    requires Sound(state) && state.active == []
    ensures !OpenAt(state.trace + [event], i, |state.trace|) && !Innermost(state.trace + [event], i, |state.trace|)
  {
    OpenAtPrefix(state.trace, event, i, |state.trace|);
  }

  lemma CallerIsInnermost(state: State, event: Event) returns (t: int)
    requires Sound(state) && state.active != []
    ensures var trace := state.trace + [event];
      && OpenAt(trace, t, |state.trace|) && trace[t].invocation == state.active[|state.active| - 1]
      && forall i :: Innermost(trace, i, |state.trace|) <==> i == t
  {
    var caller := state.active[|state.active| - 1];
    assert Positioned(state.trace, caller);
    t :| OpenAt(state.trace, t, |state.trace|) && state.trace[t].invocation == caller;
    TopIsInnermost(state, t);
    InnermostPrefix(state.trace, event, t, |state.trace|);
  }

  lemma RequestCleanIff(operations: Operations, roots: set<Key>, state: State, invocation: Invocation)
    requires Sound(state)
    ensures RequestCheck(operations, roots, state.active, invocation).Clean()
       <==> RequestPermitted(operations, roots, state.trace + [Enter(invocation)], |state.trace|)
  {
    hide Sound, OpenAt, Innermost, EdgePermitted;
    var event := Enter(invocation);
    if state.active == [] {
      forall i
        ensures !OpenAt(state.trace + [event], i, |state.trace|) && !Innermost(state.trace + [event], i, |state.trace|)
      {
        NothingOpen(state, event, i);
      }
    } else {
      hide RequestCheck;
      var t := CallerIsInnermost(state, event);
      CallerCleanIff(operations, state.active, invocation);
    }
  }

  lemma CallerCleanIff(operations: Operations, active: seq<Invocation>, invocation: Invocation)
    requires active != []
    ensures RequestCheck(operations, {}, active, invocation).Clean()
       <==> EdgePermitted(operations, active[|active| - 1], invocation)
    ensures forall roots ::
      RequestCheck(operations, roots, active, invocation) == RequestCheck(operations, {}, active, invocation)
  {
    var caller := active[|active| - 1];
    if caller.operation in operations {
      CallCleanIff(operations, active, caller, invocation);
    } else {
      assert NO_FINDINGS.Clean();
    }
  }

  lemma InnermostPrefix(trace: seq<Event>, event: Event, i: int, j: int)
    requires j <= |trace|
    ensures Innermost(trace + [event], i, j) <==> Innermost(trace, i, j)
  {
    forall other {
      OpenAtPrefix(trace, event, other, j);
    }
  }

  /** The stack-based checks of one entry find nothing exactly when the entry conforms in the extended trace. */
  lemma EntryCleanIff(operations: Operations, roots: set<Key>, state: State, invocation: Invocation)
    requires Sound(state)
    ensures EntryCheck(operations, roots, state.active, invocation).Clean()
       <==> EntryConforms(operations, roots, state.trace + [Enter(invocation)], |state.trace|)
  {
    hide RequestCheck, ProhibitionCheck, RequestPermitted, PairRespected;
    var n := |state.trace|;
    var trace := state.trace + [Enter(invocation)];
    assert NO_FINDINGS.Clean();
    var known := KnownCheck(operations, state.active, invocation);
    var request :=
      if invocation.kind.Request? then RequestCheck(operations, roots, state.active, invocation) else NO_FINDINGS;
    EmptyFindings(known.Then(request), ProhibitionCheck(operations, state.active, invocation));
    EmptyFindings(known, request);
    RequestCleanIff(operations, roots, state, invocation);
    ProhibitionCleanIff(operations, state.active, invocation);
    OpenFramesAre(state, invocation);
    assert trace[n] == Enter(invocation);
    if forall frame :: frame in state.active ==> PairRespected(operations, frame, invocation) {
      forall i | OpenAt(trace, i, n)
        ensures PairRespected(operations, trace[i].invocation, invocation)
      {
        assert trace[i].invocation in state.active;
      }
    }
    if forall i :: OpenAt(trace, i, n) ==> PairRespected(operations, trace[i].invocation, invocation) {
      forall frame | frame in state.active
        ensures PairRespected(operations, frame, invocation)
      {
        var i :| OpenAt(trace, i, n) && trace[i].invocation == frame;
      }
    }
  }

  lemma OpenFramesAre(state: State, invocation: Invocation)
    requires Sound(state)
    ensures var trace := state.trace + [Enter(invocation)];
      && (forall i :: OpenAt(trace, i, |state.trace|) ==> trace[i].invocation in state.active)
      && (forall frame :: frame in state.active ==>
            exists i :: OpenAt(trace, i, |state.trace|) && trace[i].invocation == frame)
  {
    var n := |state.trace|;
    var trace := state.trace + [Enter(invocation)];
    forall i | OpenAt(trace, i, n)
      ensures trace[i].invocation in state.active
    {
      OpenAtPrefix(state.trace, Enter(invocation), i, n);
    }
    forall frame | frame in state.active
      ensures exists i :: OpenAt(trace, i, n) && trace[i].invocation == frame
    {
      var a :| 0 <= a < |state.active| && state.active[a] == frame;
      assert Positioned(state.trace, frame);
      var i :| OpenAt(state.trace, i, n) && state.trace[i].invocation == frame;
      OpenAtPrefix(state.trace, Enter(invocation), i, n);
    }
  }

  lemma EntryConformsPrefix(operations: Operations, roots: set<Key>, trace: seq<Event>, event: Event, j: int)
    requires 0 <= j < |trace| && trace[j].Enter?
    ensures EntryConforms(operations, roots, trace + [event], j) <==> EntryConforms(operations, roots, trace, j)
  {
    hide EdgePermitted, PairRespected;
    var longer := trace + [event];
    forall i
      ensures OpenAt(longer, i, j) <==> OpenAt(trace, i, j)
      ensures Innermost(longer, i, j) <==> Innermost(trace, i, j)
    {
      OpenAtPrefix(trace, event, i, j);
      InnermostPrefix(trace, event, i, j);
    }
  }

  lemma EntriesConformSnoc(operations: Operations, roots: set<Key>, trace: seq<Event>, event: Event)
    ensures EntriesConform(operations, roots, trace + [event]) <==>
      EntriesConform(operations, roots, trace)
        && (event.Enter? ==> EntryConforms(operations, roots, trace + [event], |trace|))
  {
    hide EntryConforms;
    var longer := trace + [event];
    forall j | 0 <= j < |trace| && trace[j].Enter?
      ensures EntryConforms(operations, roots, longer, j) <==> EntryConforms(operations, roots, trace, j)
    {
      EntryConformsPrefix(operations, roots, trace, event, j);
    }
    assert forall j :: 0 <= j < |trace| ==> longer[j] == trace[j];
    assert longer[|trace|] == event;
  }

  predicate Quiet(state: State) {
    state.violations == [] && state.gaps == []
  }

  ghost predicate ConformsSoFar(operations: Operations, roots: set<Key>, calls: seq<Call>, trace: seq<Event>) {
    && roots <= operations.Keys
    && NoReportedGap(calls)
    && ExitEvents(trace) == ExitCalls(calls)
    && EntriesConform(operations, roots, trace)
  }

  lemma QuietStep(operations: Operations, roots: set<Key>, state: State, calls: seq<Call>, call: Call)
    requires Sound(state) && Recorded(state, calls)
    requires Quiet(state) <==> ConformsSoFar(operations, roots, calls, state.trace)
    ensures Quiet(Step(operations, roots, state, call))
       <==> ConformsSoFar(operations, roots, calls + [call], Step(operations, roots, state, call).trace)
  {
    hide EntryCheck, EntriesConform;
    var all := calls + [call];
    assert all[..|calls|] == calls && all[|calls|] == call;
    assert NoReportedGap(all) <==> NoReportedGap(calls) && !call.GapCall? by {
      assert forall n :: 0 <= n < |calls| ==> all[n] == calls[n];
    }
    match call
    case EnterCall(operation, receiver, kind) =>
      var invocation := Entered(state, operation, receiver, kind);
      var findings := EntryCheck(operations, roots, state.active, invocation);
      EntryCleanIff(operations, roots, state, invocation);
      EntriesConformSnoc(operations, roots, state.trace, Enter(invocation));
      assert (state.trace + [Enter(invocation)])[..|state.trace|] == state.trace;
      EmptyFindings(Findings(state.violations, state.gaps), findings);
    case ExitCall(id) =>
      if IsActiveTop(state.active, id) {
        EntriesConformSnoc(operations, roots, state.trace, Exit(id));
        assert (state.trace + [Exit(id)])[..|state.trace|] == state.trace;
      }
    case GapCall(message) =>
  }

  lemma QuietAtStart(operations: Operations, roots: set<Key>, start: State)
    requires Initial(operations, roots, start)
    ensures Quiet(start) <==> ConformsSoFar(operations, roots, [], start.trace)
  {
    assert roots <= operations.Keys <==> start.gaps == [] by {
      if start.gaps != [] {
        assert start.gaps[0] in start.gaps;
      }
      forall root | root in roots && root !in operations
        ensures start.gaps != []
      {
        assert MissingRoot(root) in start.gaps;
      }
    }
  }

  lemma {:induction false} QuietIffConformsSoFar(operations: Operations, roots: set<Key>, start: State,
                                                 calls: seq<Call>)
    requires Initial(operations, roots, start)
    ensures Quiet(Run(operations, roots, start, calls))
       <==> ConformsSoFar(operations, roots, calls, Run(operations, roots, start, calls).trace)
  {
    if calls == [] {
      QuietAtStart(operations, roots, start);
    } else {
      hide Initial, Step, Quiet, ConformsSoFar, Sound, Recorded;
      var front := calls[..|calls| - 1];
      QuietIffConformsSoFar(operations, roots, start, front);
      RunIsSound(operations, roots, start, front);
      TraceRecordsCalls(operations, roots, start, front);
      QuietStep(operations, roots, Run(operations, roots, start, front), front, calls[|calls| - 1]);
      assert calls == front + [calls[|calls| - 1]];
    }
  }

  lemma BalancedIffClosed(state: State)
    requires Sound(state)
    ensures Balanced(state.trace) <==> state.active == []
  {
    if state.active != [] {
      assert Positioned(state.trace, state.active[0]);
      var i :| OpenAt(state.trace, i, |state.trace|) && state.trace[i].invocation == state.active[0];
    } else {
      forall i | 0 <= i < |state.trace| && state.trace[i].Enter?
        ensures exists k :: i < k < |state.trace| && state.trace[k] == Exit(state.trace[i].invocation.id)
      {
        assert !OpenAt(state.trace, i, |state.trace|);
      }
    }
  }

  /** `calls_conform` means what it says: for every sequence of session calls, the
      report conforms exactly when the configured roots exist, no gap was reported,
      every exit matched, the trace is balanced, every request edge is permitted
      and every enclosing prohibition is respected. */
  lemma ReportIffConforms(operations: Operations, roots: set<Key>, start: State, calls: seq<Call>)
    requires Initial(operations, roots, start)
    ensures var end := Run(operations, roots, start, calls);
      ReportOf(end).callsConform <==> Conforms(operations, roots, calls, end.trace)
  {
    hide Sound, EntriesConform, Balanced;
    RunIsSound(operations, roots, start, calls);
    QuietIffConformsSoFar(operations, roots, start, calls);
    BalancedIffClosed(Run(operations, roots, start, calls));
  }

  ghost predicate EntersUnchecked(operations: Operations, trace: seq<Event>, effect: UncheckedEffect) {
    exists i :: 0 <= i < |trace| && trace[i].Enter? && effect in UncheckedOf(operations, trace[i].invocation.operation)
  }

  lemma EntersUncheckedSnoc(operations: Operations, trace: seq<Event>, event: Event, effect: UncheckedEffect)
    ensures EntersUnchecked(operations, trace + [event], effect) <==>
      || EntersUnchecked(operations, trace, effect)
      || (event.Enter? && effect in UncheckedOf(operations, event.invocation.operation))
  {
    var longer := trace + [event];
    assert longer[|trace|] == event;
    assert forall i :: 0 <= i < |trace| ==> longer[i] == trace[i];
  }

  /** The unchecked effects of a session are those of the operations entered, whatever was found about them. */
  lemma {:induction false} UncheckedAreEntered(operations: Operations, roots: set<Key>, start: State, calls: seq<Call>,
                                               effect: UncheckedEffect)
    requires Initial(operations, roots, start)
    ensures var end := Run(operations, roots, start, calls);
      effect in end.uncheckedEffects <==> EntersUnchecked(operations, end.trace, effect)
  {
    if calls != [] {
      hide EntryCheck, EntersUnchecked;
      var before := Run(operations, roots, start, calls[..|calls| - 1]);
      UncheckedAreEntered(operations, roots, start, calls[..|calls| - 1], effect);
      match calls[|calls| - 1]
      case EnterCall(operation, receiver, kind) =>
        EntersUncheckedSnoc(operations, before.trace, Enter(Entered(before, operation, receiver, kind)), effect);
      case ExitCall(id) => EntersUncheckedSnoc(operations, before.trace, Exit(id), effect);
      case GapCall(message) =>
    }
  }
}
