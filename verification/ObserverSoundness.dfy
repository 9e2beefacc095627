/** What the observer guarantees over every sequence of events. */
module ObserverSoundness {
  import opened Wrappers
  import opened ContractSession
  import opened SessionReference
  import opened Observer
  import opened QueryOutcomes
  import opened QueryNesting

  ghost function Observe(setting: Setting, start: Observed, events: seq<RawEvent>): Observed {
    if events == [] then start
    else After(setting, Observe(setting, start, events[..|events| - 1]), events[|events| - 1])
  }

  /** All session calls made while observing. */
  ghost function AllCalls(setting: Setting, start: Observed, events: seq<RawEvent>): seq<Call> {
    if events == [] then []
    else
      var n := |events| - 1;
      AllCalls(setting, start, events[..n]) + CallsFor(setting, Observe(setting, start, events[..n]), events[n])
  }

  ghost predicate Begins(setting: Setting, start: Observed) {
    start == Observed(start.session, [], [], map[], None) && Initial(setting.operations, setting.roots, start.session)
  }

  lemma {:induction false} SessionIsRun(setting: Setting, start: Observed, events: seq<RawEvent>)
    ensures Observe(setting, start, events).session ==
      Run(setting.operations, setting.roots, start.session, AllCalls(setting, start, events))
  {
    if events != [] {
      hide CallsFor, Run;
      var n := |events| - 1;
      var o := Observe(setting, start, events[..n]);
      SessionIsRun(setting, start, events[..n]);
      AfterSession(setting, o, events[n]);
      RunConcat(setting.operations, setting.roots, start.session, AllCalls(setting, start, events[..n]),
                CallsFor(setting, o, events[n]));
    } else {
      RunNothing(setting.operations, setting.roots, start.session);
    }
  }

  lemma AfterSession(setting: Setting, o: Observed, event: RawEvent)
    ensures After(setting, o, event).session
         == Run(setting.operations, setting.roots, o.session, CallsFor(setting, o, event))
  {
    RunNothing(setting.operations, setting.roots, o.session);
  }

  // ---------------------------------------------------------------- the two stacks

  /** The invocations held by open scopes, outermost first. */
  function ScopeIds(scopes: seq<Scope>): seq<InvocationId> {
    if scopes == [] then []
    else
      var last := scopes[|scopes| - 1];
      ScopeIds(scopes[..|scopes| - 1]) + if last.invocation.Some? then [last.invocation.value] else []
  }

  function FrameIds(active: seq<Invocation>): (ids: seq<InvocationId>)
    ensures |ids| == |active| && forall i :: 0 <= i < |ids| ==> ids[i] == active[i].id
  {
    if active == [] then [] else FrameIds(active[..|active| - 1]) + [active[|active| - 1].id]
  }

  ghost predicate NeverUnbalanced(violations: seq<Violation>) {
    forall i :: 0 <= i < |violations| ==> !violations[i].kind.UnbalancedExit?
  }

  /** The scope stack and the session's stack move together, and every exit so far matched. */
  ghost predicate Lockstep(session: State, scopes: seq<Scope>, calls: seq<Call>) {
    && ScopeIds(scopes) == FrameIds(session.active)
    && NeverUnbalanced(session.violations)
    && ExitEvents(session.trace) == ExitCalls(calls)
  }

  lemma {:induction false} ExitCallsConcat(a: seq<Call>, b: seq<Call>)
    ensures ExitCalls(a + b) == ExitCalls(a) + ExitCalls(b)
  {
    if b == [] {
      assert a + b == a;
    } else {
      ExitCallsConcat(a, b[..|b| - 1]);
      assert (a + b)[..|a + b| - 1] == a + b[..|b| - 1];
    }
  }

  lemma {:induction false} GapsExitNothing(calls: seq<Call>)
    requires forall i :: 0 <= i < |calls| ==> calls[i].GapCall?
    ensures ExitCalls(calls) == 0
  {
    if calls != [] {
      GapsExitNothing(calls[..|calls| - 1]);
    }
  }

  lemma LockstepGaps(setting: Setting, session: State, scopes: seq<Scope>, calls: seq<Call>, gaps: seq<Call>)
    requires Lockstep(session, scopes, calls) && forall i :: 0 <= i < |gaps| ==> gaps[i].GapCall?
    ensures Lockstep(Run(setting.operations, setting.roots, session, gaps), scopes, calls + gaps)
    ensures Run(setting.operations, setting.roots, session, gaps).nextId == session.nextId
  {
    GapsKeep(setting.operations, setting.roots, session, gaps);
    ExitCallsConcat(calls, gaps);
    GapsExitNothing(gaps);
  }

  lemma {:induction false} RestrictionsNeverUnbalanced(active: seq<Invocation>, restrictions: seq<Restriction>,
                                                       invocation: Invocation)
    ensures NeverUnbalanced(RestrictionsCheck(active, restrictions, invocation).violations)
  {
    if restrictions != [] {
      RestrictionsNeverUnbalanced(active, restrictions[..|restrictions| - 1], invocation);
    }
  }

  lemma EntryNeverUnbalanced(setting: Setting, active: seq<Invocation>, invocation: Invocation)
    ensures NeverUnbalanced(EntryCheck(setting.operations, setting.roots, active, invocation).violations)
  {
    hide Restrictions, RestrictionsCheck;
    RestrictionsNeverUnbalanced(active, Restrictions(setting.operations, active, invocation.operation), invocation);
  }

  lemma LockstepEnter(setting: Setting, session: State, scopes: seq<Scope>, calls: seq<Call>,
                      mapping: Option<Mapping>, kind: EntryKind,
                      key: QueryKey, scopeKind: ScopeKind)
    requires Lockstep(session, scopes, calls)
    ensures Lockstep(Run(setting.operations, setting.roots, session, EnterIf(mapping, kind)),
                     scopes + [Scope(key, IdIf(mapping, session.nextId), scopeKind)], calls + EnterIf(mapping, kind))
  {
    hide EntryCheck;
    var longer := scopes + [Scope(key, IdIf(mapping, session.nextId), scopeKind)];
    assert longer[..|scopes|] == scopes;
    ExitCallsConcat(calls, EnterIf(mapping, kind));
    if mapping.Some? {
      var operation := mapping.value.operation;
      RunSnoc(setting.operations, setting.roots, session, [], EnterCall(operation, None, kind));
      var invocation := Entered(session, operation, None, kind);
      EntryNeverUnbalanced(setting, session.active, invocation);
      var after := AfterEnter(setting.operations, setting.roots, session, operation, None, kind);
      assert after.active[..|session.active|] == session.active && after.trace[..|session.trace|] == session.trace;
      assert EnterIf(mapping, kind)[..0] == [];
    }
  }

  lemma LockstepExit(session: State, scopes: seq<Scope>, calls: seq<Call>, id: InvocationId)
    requires Lockstep(session, scopes, calls) && scopes != [] && scopes[|scopes| - 1].invocation == Some(id)
    ensures Lockstep(AfterExit(session, id), scopes[..|scopes| - 1], calls + [ExitCall(id)])
  {
    var ids, frames := ScopeIds(scopes), FrameIds(session.active);
    assert ids[|ids| - 1] == id && frames[|frames| - 1] == session.active[|session.active| - 1].id;
    assert ids[..|ids| - 1] == ScopeIds(scopes[..|scopes| - 1]);
    assert frames[..|frames| - 1] == FrameIds(session.active[..|session.active| - 1]);
    assert (session.trace + [Event.Exit(id)])[..|session.trace|] == session.trace;
    assert (calls + [ExitCall(id)])[..|calls|] == calls;
  }

  lemma LockstepDrop(session: State, scopes: seq<Scope>, calls: seq<Call>)
    requires Lockstep(session, scopes, calls) && scopes != [] && scopes[|scopes| - 1].invocation.None?
    ensures Lockstep(session, scopes[..|scopes| - 1], calls)
  {
  }

  lemma LockstepClose(setting: Setting, session: State, scopes: seq<Scope>, calls: seq<Call>, key: QueryKey,
                      execution: bool)
    requires Lockstep(session, scopes, calls)
    ensures Lockstep(Run(setting.operations, setting.roots, session, CloseCalls(scopes, key, execution)),
                     ScopesClosed(scopes, key, execution), calls + CloseCalls(scopes, key, execution))
  {
    hide Lockstep, Run;
    RunNothing(setting.operations, setting.roots, session);
    if !TopCloses(scopes, key, execution) {
      LockstepGaps(setting, session, scopes, calls, CloseCalls(scopes, key, execution));
    } else {
      match scopes[|scopes| - 1].invocation
      case None =>
        LockstepDrop(session, scopes, calls);
        assert calls + [] == calls;
      case Some(id) =>
        LockstepExit(session, scopes, calls, id);
        RunSnoc(setting.operations, setting.roots, session, [], ExitCall(id));
        assert [] + [ExitCall(id)] == [ExitCall(id)];
    }
  }

  lemma MarkingKeepsIds(scopes: seq<Scope>, key: QueryKey)
    ensures ScopeIds(ScopesMarked(scopes, key)) == ScopeIds(scopes)
  {
    if TopRequests(scopes, key) {
      var marked := ScopesMarked(scopes, key);
      assert marked[..|marked| - 1] == scopes[..|scopes| - 1];
    }
  }

  lemma LockstepFollow(setting: Setting, session: State, scopes: seq<Scope>, calls: seq<Call>, lifecycle: Lifecycle,
                       cause: Option<RequestCause>, mapping: Option<Mapping>)
    requires Lockstep(session, scopes, calls)
    ensures Lockstep(Run(setting.operations, setting.roots, session, LifecycleCalls(scopes, lifecycle, cause, mapping)),
                     LifecycleScopes(scopes, lifecycle, cause, mapping, session.nextId),
                     calls + LifecycleCalls(scopes, lifecycle, cause, mapping))
  {
    hide Lockstep, Run, CloseCalls, ScopesClosed, ScopesMarked, EnterIf, IdIf;
    match lifecycle
    case WillRequest(key) =>
      LockstepEnter(setting, session, scopes, calls, mapping, RequestKind(cause), key, RequestScope(false, cause));
    case DidExecute(key) => LockstepClose(setting, session, scopes, calls, key, true);
    case DidRequest(key, disposition) =>
      var gaps := ReturnCalls(scopes, key, disposition, cause);
      LockstepGaps(setting, session, scopes, calls, gaps);
      var middle := Run(setting.operations, setting.roots, session, gaps);
      LockstepClose(setting, middle, scopes, calls + gaps, key, false);
      RunConcat(setting.operations, setting.roots, session, gaps, CloseCalls(scopes, key, false));
      assert (calls + gaps) + CloseCalls(scopes, key, false) == calls + (gaps + CloseCalls(scopes, key, false));
    case WillExecute(key) =>
      LockstepMarked(session, scopes, calls, key);
      if TopRequests(scopes, key) {
        LockstepSilent(setting, session, ScopesMarked(scopes, key), calls, key);
      } else {
        assert ScopesMarked(scopes, key) == scopes by {
          UnmarkedScopes(scopes, key);
        }
        LockstepEnter(setting, session, scopes, calls, mapping, Validation, key, ExecutionScope);
      }
  }

  lemma UnmarkedScopes(scopes: seq<Scope>, key: QueryKey)
    requires !TopRequests(scopes, key)
    ensures ScopesMarked(scopes, key) == scopes
  {
  }

  lemma LockstepMarked(session: State, scopes: seq<Scope>, calls: seq<Call>, key: QueryKey)
    requires Lockstep(session, scopes, calls)
    ensures Lockstep(session, ScopesMarked(scopes, key), calls)
  {
    MarkingKeepsIds(scopes, key);
  }

  lemma LockstepSilent(setting: Setting, session: State, scopes: seq<Scope>, calls: seq<Call>, key: QueryKey)
    requires Lockstep(session, scopes, calls)
    ensures Lockstep(Run(setting.operations, setting.roots, session, []), scopes + [Scope(key, None, ExecutionScope)],
                     calls + [])
  {
    assert (scopes + [Scope(key, None, ExecutionScope)])[..|scopes|] == scopes;
    assert calls + [] == calls;
  }

  lemma LockstepStep(setting: Setting, o: Observed, calls: seq<Call>, event: RawEvent)
    requires Lockstep(o.session, o.scopes, calls)
    ensures Lockstep(After(setting, o, event).session, After(setting, o, event).scopes,
                     calls + CallsFor(setting, o, event))
  {
    hide Lockstep, Run, LifecycleCalls, LifecycleScopes;
    AfterSession(setting, o, event);
    if event.lifecycle.None? || Foreign(o, event) || event.source.None? {
      LockstepGaps(setting, o.session, o.scopes, calls, CallsFor(setting, o, event));
    } else {
      var lifecycle, source := event.lifecycle.value, event.source.value;
      var definition := DefinitionOf(setting, o.definitions, lifecycle.key, source);
      var gaps := DefinitionCalls(definition, lifecycle, source, event.cause);
      var following := LifecycleCalls(o.scopes, lifecycle, event.cause, MappingOf(definition));
      LockstepGaps(setting, o.session, o.scopes, calls, gaps);
      var middle := Run(setting.operations, setting.roots, o.session, gaps);
      LockstepFollow(setting, middle, o.scopes, calls + gaps, lifecycle, event.cause, MappingOf(definition));
      RunConcat(setting.operations, setting.roots, o.session, gaps, following);
      assert (calls + gaps) + following == calls + (gaps + following);
    }
  }

  /** After any events at all, the ids in the open scopes are the ids of the session's
      active frames, and no exit was ever unbalanced. */
  lemma {:induction false} StacksMoveInLockstep(setting: Setting, start: Observed, events: seq<RawEvent>)
    requires Begins(setting, start)
    ensures var end := Observe(setting, start, events);
      Lockstep(end.session, end.scopes, AllCalls(setting, start, events))
  {
    if events != [] {
      hide Lockstep, CallsFor, After;
      var n := |events| - 1;
      StacksMoveInLockstep(setting, start, events[..n]);
      LockstepStep(setting, Observe(setting, start, events[..n]), AllCalls(setting, start, events[..n]), events[n]);
    }
  }

  // ---------------------------------------------------------------- when nothing is complained about

  ghost function FramesOf(scopes: seq<Scope>): (frames: seq<Frame>)
    ensures |frames| == |scopes|
    ensures forall i :: 0 <= i < |scopes| ==> frames[i] == Frame(scopes[i].key, scopes[i].kind)
  {
    seq(|scopes|, i requires 0 <= i < |scopes| => Frame(scopes[i].key, scopes[i].kind))
  }

  /** The events the observer looks at. */
  ghost function Relevant(events: seq<RawEvent>): (relevant: seq<RawEvent>)
    ensures forall i :: 0 <= i < |relevant| ==> relevant[i].lifecycle.Some?
  {
    if events == [] then []
    else Relevant(events[..|events| - 1]) + if events[|events| - 1].lifecycle.Some? then [events[|events| - 1]] else []
  }

  ghost predicate Sourced(setting: Setting, event: RawEvent)
    requires event.lifecycle.Some?
  {
    && event.source.Some? && Resolve(setting, event.source.value).Ok?
    && (NeedsCause(event.lifecycle.value) ==> event.cause.Some?)
  }

  /** Same thread, and the same definition comes from the same source. */
  ghost predicate Compatible(a: RawEvent, b: RawEvent)
    requires a.lifecycle.Some? && b.lifecycle.Some?
  {
    && a.thread == b.thread
    && (a.lifecycle.value.key.ingredient == b.lifecycle.value.key.ingredient ==> a.source == b.source)
  }

  ghost predicate Provenanced(setting: Setting, relevant: seq<RawEvent>)
    requires forall i :: 0 <= i < |relevant| ==> relevant[i].lifecycle.Some?
  {
    && (forall i :: 0 <= i < |relevant| ==> Sourced(setting, relevant[i]))
    && (forall i, j :: 0 <= i < j < |relevant| ==> Compatible(relevant[i], relevant[j]))
  }

  ghost function ShapesOfEvents(relevant: seq<RawEvent>): (shapes: seq<Shape>)
    requires forall i :: 0 <= i < |relevant| ==> relevant[i].lifecycle.Some?
    ensures |shapes| == |relevant|
    ensures forall i :: 0 <= i < |shapes| ==> shapes[i] == ShapeOf(relevant[i].lifecycle.value, relevant[i].cause)
  {
    seq(|relevant|, i requires 0 <= i < |relevant| && relevant[i].lifecycle.Some? =>
      ShapeOf(relevant[i].lifecycle.value, relevant[i].cause))
  }

  /** A declarative reading of a whole event log: every event has its provenance, one
      thread produced them all, definitions keep their source, and requests and
      executions are properly nested with truthful dispositions. */
  ghost predicate Orderly(setting: Setting, events: seq<RawEvent>) {
    Provenanced(setting, Relevant(events)) && WellNested(ShapesOfEvents(Relevant(events)))
  }

  // What the observer remembers of the events so far, as long as it complained about none.
  ghost predicate Remembers(setting: Setting, o: Observed, relevant: seq<RawEvent>)
    requires forall i :: 0 <= i < |relevant| ==> relevant[i].lifecycle.Some?
  {
    && (o.thread.None? <==> relevant == [])
    && (forall i :: 0 <= i < |relevant| ==> o.thread == Some(relevant[i].thread))
    && (forall i :: 0 <= i < |relevant| ==> Remembered(setting, o.definitions, relevant[i]))
    && (forall ingredient :: ingredient in o.definitions ==> Originates(relevant, ingredient))
  }

  ghost predicate Remembered(setting: Setting, definitions: map<nat, Definition>, event: RawEvent)
    requires event.lifecycle.Some?
  {
    var ingredient := event.lifecycle.value.key.ingredient;
    && ingredient in definitions && event.source == Some(definitions[ingredient].source)
    && definitions[ingredient].mapping == Resolve(setting, definitions[ingredient].source)
  }

  ghost predicate Originates(relevant: seq<RawEvent>, ingredient: nat)
    requires forall i :: 0 <= i < |relevant| ==> relevant[i].lifecycle.Some?
  {
    exists i :: 0 <= i < |relevant| && relevant[i].lifecycle.value.key.ingredient == ingredient
  }

  ghost predicate Agreeable(setting: Setting, relevant: seq<RawEvent>, event: RawEvent)
    requires event.lifecycle.Some? && forall i :: 0 <= i < |relevant| ==> relevant[i].lifecycle.Some?
  {
    Sourced(setting, event) && forall i :: 0 <= i < |relevant| ==> Compatible(relevant[i], event)
  }

  lemma GapsConcat(a: seq<Call>, b: seq<Call>)
    ensures NoReportedGap(a + b) <==> NoReportedGap(a) && NoReportedGap(b)
  {
    var calls := a + b;
    assert forall n :: 0 <= n < |a| ==> calls[n] == a[n];
    assert forall n :: 0 <= n < |b| ==> calls[|a| + n] == b[n];
  }

  lemma GapIfs(condition: bool, message: string)
    ensures NoReportedGap(GapIf(condition, message)) <==> !condition
  {
    if condition {
      assert GapIf(condition, message)[0].GapCall?;
    }
  }

  lemma DefinitionQuiet(definition: Definition, lifecycle: Lifecycle, source: QuerySource, cause: Option<RequestCause>)
    ensures NoReportedGap(DefinitionCalls(definition, lifecycle, source, cause)) <==>
      definition.source == source && definition.mapping.Ok? && (NeedsCause(lifecycle) ==> cause.Some?)
  {
    hide NoReportedGap, GapIf;
    var first := GapIf(definition.source != source, CHANGED_SOURCE);
    var second := if definition.mapping.Err? then [GapCall(definition.mapping.error)] else [];
    var third := GapIf(NeedsCause(lifecycle) && cause.None?, NO_CAUSE);
    GapIfs(definition.source != source, CHANGED_SOURCE);
    GapIfs(NeedsCause(lifecycle) && cause.None?, NO_CAUSE);
    assert NoReportedGap(second) <==> definition.mapping.Ok? by {
      if definition.mapping.Err? {
        GapIfs(true, definition.mapping.error);
        assert second == GapIf(true, definition.mapping.error) by {
          SingleGap(definition.mapping.error);
        }
      } else {
        GapIfs(false, "");
        assert second == GapIf(false, "") by {
          SingleGap("");
        }
      }
    }
    GapsConcat(first, second);
    GapsConcat(first + second, third);
  }

  lemma SingleGap(message: string)
    ensures GapIf(true, message) == [GapCall(message)] && GapIf(false, message) == []
  {
  }

  lemma ReturnQuiet(scopes: seq<Scope>, key: QueryKey, disposition: Disposition, cause: Option<RequestCause>)
    requires TopRequests(scopes, key)
    ensures var kind := scopes[|scopes| - 1].kind;
      NoReportedGap(ReturnCalls(scopes, key, disposition, cause)) <==>
      HonestDisposition(disposition, kind.executed) && kind.cause == cause
  {
    hide NoReportedGap, GapIf;
    var kind := scopes[|scopes| - 1].kind;
    var first := GapIf(disposition.Executed? && !kind.executed, NOT_EXECUTED);
    var second := GapIf((disposition.Reused? || disposition.Validated?) && kind.executed, CACHED_AFTER_EXECUTING);
    GapIfs(disposition.Executed? && !kind.executed, NOT_EXECUTED);
    GapIfs((disposition.Reused? || disposition.Validated?) && kind.executed, CACHED_AFTER_EXECUTING);
    GapIfs(kind.cause != cause, CHANGED_CAUSE);
    GapsConcat(first, second);
    GapsConcat(first + second, GapIf(kind.cause != cause, CHANGED_CAUSE));
  }

  lemma CloseQuiet(scopes: seq<Scope>, key: QueryKey, execution: bool)
    ensures NoReportedGap(CloseCalls(scopes, key, execution)) <==> TopCloses(scopes, key, execution)
  {
    if !TopCloses(scopes, key, execution) {
      assert CloseCalls(scopes, key, execution)[0].GapCall?;
    }
  }

  /** The observer stays quiet about nesting exactly when the frame stack can advance. */
  lemma AnswerQuiet(scopes: seq<Scope>, key: QueryKey, disposition: Disposition, cause: Option<RequestCause>)
    ensures var next := Advance(FramesOf(scopes), Answer(key, disposition, cause));
      && (NoReportedGap(ReturnCalls(scopes, key, disposition, cause) + CloseCalls(scopes, key, false)) <==> next.Some?)
      && (next.Some? ==> FramesOf(ScopesClosed(scopes, key, false)) == next.value)
  {
    hide NoReportedGap, ReturnCalls, CloseCalls;
    CloseQuiet(scopes, key, false);
    GapsConcat(ReturnCalls(scopes, key, disposition, cause), CloseCalls(scopes, key, false));
    if TopRequests(scopes, key) {
      ReturnQuiet(scopes, key, disposition, cause);
    }
  }

  lemma FollowQuiet(scopes: seq<Scope>, lifecycle: Lifecycle, cause: Option<RequestCause>, mapping: Option<Mapping>,
                    id: InvocationId)
    ensures var next := Advance(FramesOf(scopes), ShapeOf(lifecycle, cause));
      && (NoReportedGap(LifecycleCalls(scopes, lifecycle, cause, mapping)) <==> next.Some?)
      && (next.Some? ==> FramesOf(LifecycleScopes(scopes, lifecycle, cause, mapping, id)) == next.value)
  {
    var frames := FramesOf(scopes);
    match lifecycle
    case WillRequest(key) =>
    case WillExecute(key) =>
      assert FramesOf(ScopesMarked(scopes, key)) == Marked(frames, key);
    case DidExecute(key) =>
      CloseQuiet(scopes, key, true);
    case DidRequest(key, disposition) =>
      AnswerQuiet(scopes, key, disposition, cause);
  }

  /** One event is complained about unless it agrees with everything remembered and keeps the nesting. */
  lemma EventQuiet(setting: Setting, o: Observed, relevant: seq<RawEvent>, event: RawEvent)
    requires event.lifecycle.Some? && forall i :: 0 <= i < |relevant| ==> relevant[i].lifecycle.Some?
    requires Remembers(setting, o, relevant)
    ensures NoReportedGap(CallsFor(setting, o, event)) <==>
      Agreeable(setting, relevant, event)
        && Advance(FramesOf(o.scopes), ShapeOf(event.lifecycle.value, event.cause)).Some?
  {
    hide NoReportedGap, DefinitionCalls, LifecycleCalls, Advance, FramesOf;
    GapIfs(true, OTHER_THREAD);
    GapIfs(true, NO_SOURCE);
    if Foreign(o, event) {
      assert relevant != [] && !Compatible(relevant[0], event);
    } else if event.source.Some? {
      var lifecycle, source := event.lifecycle.value, event.source.value;
      var definition := DefinitionOf(setting, o.definitions, lifecycle.key, source);
      DefinitionQuiet(definition, lifecycle, source, event.cause);
      FollowQuiet(o.scopes, lifecycle, event.cause, MappingOf(definition), o.session.nextId);
      GapsConcat(DefinitionCalls(definition, lifecycle, source, event.cause),
                 LifecycleCalls(o.scopes, lifecycle, event.cause, MappingOf(definition)));
      AgreeableIff(setting, o, relevant, event);
    }
  }

  lemma AgreeableIff(setting: Setting, o: Observed, relevant: seq<RawEvent>, event: RawEvent)
    requires event.lifecycle.Some? && event.source.Some? && forall i :: 0 <= i < |relevant| ==>
      relevant[i].lifecycle.Some?
    requires Remembers(setting, o, relevant) && !Foreign(o, event)
    ensures var definition := DefinitionOf(setting, o.definitions, event.lifecycle.value.key, event.source.value);
      Agreeable(setting, relevant, event) <==>
      definition.source == event.source.value && definition.mapping.Ok?
        && (NeedsCause(event.lifecycle.value) ==> event.cause.Some?)
  {
    var ingredient := event.lifecycle.value.key.ingredient;
    if ingredient in o.definitions {
      assert Originates(relevant, ingredient);
      var i :| 0 <= i < |relevant| && relevant[i].lifecycle.value.key.ingredient == ingredient;
      assert Remembered(setting, o.definitions, relevant[i]);
      assert Compatible(relevant[i], event) <==> event.source == relevant[i].source;
      forall k | 0 <= k < |relevant|
        ensures Compatible(relevant[k], event) <==>
          (relevant[k].lifecycle.value.key.ingredient == ingredient ==>
            event.source.value == o.definitions[ingredient].source)
      {
        assert Remembered(setting, o.definitions, relevant[k]);
      }
    } else {
      forall k | 0 <= k < |relevant|
        ensures Compatible(relevant[k], event)
      {
        assert Remembered(setting, o.definitions, relevant[k]);
      }
    }
  }

  lemma OriginatesSnoc(relevant: seq<RawEvent>, event: RawEvent, ingredient: nat)
    requires event.lifecycle.Some? && forall i :: 0 <= i < |relevant| ==> relevant[i].lifecycle.Some?
    ensures Originates(relevant + [event], ingredient) <==>
      Originates(relevant, ingredient) || event.lifecycle.value.key.ingredient == ingredient
  {
    var longer := relevant + [event];
    assert longer[|relevant|] == event;
    assert forall i :: 0 <= i < |relevant| ==> longer[i] == relevant[i];
  }

  lemma RemembersStep(setting: Setting, o: Observed, relevant: seq<RawEvent>, event: RawEvent)
    requires event.lifecycle.Some? && forall i :: 0 <= i < |relevant| ==> relevant[i].lifecycle.Some?
    requires Remembers(setting, o, relevant) && Agreeable(setting, relevant, event) && !Foreign(o, event)
    ensures Remembers(setting, After(setting, o, event), relevant + [event])
  {
    hide Run, CallsFor, LifecycleScopes;
    var longer := relevant + [event];
    var after := After(setting, o, event);
    var ingredient := event.lifecycle.value.key.ingredient;
    AgreeableIff(setting, o, relevant, event);
    forall i | 0 <= i < |longer|
      ensures after.thread == Some(longer[i].thread) && Remembered(setting, after.definitions, longer[i])
    {
      if i < |relevant| {
        assert longer[i] == relevant[i] && Remembered(setting, o.definitions, relevant[i]);
      } else if ingredient in o.definitions {
        assert Originates(relevant, ingredient);
        var k :| 0 <= k < |relevant| && relevant[k].lifecycle.value.key.ingredient == ingredient;
        assert Remembered(setting, o.definitions, relevant[k]);
      }
    }
    forall known | known in after.definitions
      ensures Originates(longer, known)
    {
      OriginatesSnoc(relevant, event, known);
    }
  }

  lemma QuietIsNotForeign(setting: Setting, o: Observed, relevant: seq<RawEvent>, event: RawEvent)
    requires event.lifecycle.Some? && forall i :: 0 <= i < |relevant| ==> relevant[i].lifecycle.Some?
    requires Remembers(setting, o, relevant) && Agreeable(setting, relevant, event)
    ensures !Foreign(o, event) && event.source.Some?
  {
    if relevant != [] {
      assert Compatible(relevant[0], event);
    }
  }

  lemma ProvenancedSnoc(setting: Setting, relevant: seq<RawEvent>, event: RawEvent)
    requires event.lifecycle.Some? && forall i :: 0 <= i < |relevant| ==> relevant[i].lifecycle.Some?
    ensures Provenanced(setting, relevant + [event])
       <==> Provenanced(setting, relevant) && Agreeable(setting, relevant, event)
  {
    hide Sourced, Compatible;
    var longer := relevant + [event];
    assert longer[|relevant|] == event;
    assert forall i :: 0 <= i < |relevant| ==> longer[i] == relevant[i];
  }

  lemma ShapesSnoc(relevant: seq<RawEvent>, event: RawEvent)
    requires event.lifecycle.Some? && forall i :: 0 <= i < |relevant| ==> relevant[i].lifecycle.Some?
    ensures var shapes := ShapesOfEvents(relevant);
      && ShapesOfEvents(relevant + [event]) == shapes + [ShapeOf(event.lifecycle.value, event.cause)]
      && AdvanceAll([], ShapesOfEvents(relevant + [event])) ==
           match AdvanceAll([], shapes)
           case Some(frames) => Advance(frames, ShapeOf(event.lifecycle.value, event.cause))
           case None => None
  {
    hide Advance;
    var longer := ShapesOfEvents(relevant + [event]);
    assert longer[..|relevant|] == ShapesOfEvents(relevant);
  }

  /** Everything up to a point, without asking that open work is finished. */
  ghost predicate OrderlySoFar(setting: Setting, events: seq<RawEvent>) {
    Provenanced(setting, Relevant(events)) && AdvanceAll([], ShapesOfEvents(Relevant(events))).Some?
  }

  lemma {:induction false} QuietIffOrderlySoFar(setting: Setting, start: Observed, events: seq<RawEvent>)
    requires Begins(setting, start)
    ensures NoReportedGap(AllCalls(setting, start, events)) <==> OrderlySoFar(setting, events)
    ensures OrderlySoFar(setting, events) ==>
      && Remembers(setting, Observe(setting, start, events), Relevant(events))
      && AdvanceAll([], ShapesOfEvents(Relevant(events))) == Some(FramesOf(Observe(setting, start, events).scopes))
  {
    if events == [] {
      assert FramesOf(start.scopes) == [] && ShapesOfEvents([]) == [];
    } else {
      hide NoReportedGap, CallsFor, Provenanced, Agreeable, Advance, AdvanceAll, Remembers, FramesOf, ShapesOfEvents,
        After;
      var n := |events| - 1;
      var front, event := events[..n], events[n];
      var o := Observe(setting, start, front);
      QuietIffOrderlySoFar(setting, start, front);
      GapsConcat(AllCalls(setting, start, front), CallsFor(setting, o, event));
      if event.lifecycle.None? {
        IrrelevantEvent(setting, o, event);
        assert Relevant(events) == Relevant(front);
      } else {
        ProvenancedSnoc(setting, Relevant(front), event);
        ShapesSnoc(Relevant(front), event);
        if OrderlySoFar(setting, front) {
          EventQuiet(setting, o, Relevant(front), event);
          if Agreeable(setting, Relevant(front), event) {
            QuietIsNotForeign(setting, o, Relevant(front), event);
            RemembersStep(setting, o, Relevant(front), event);
            AfterFrames(setting, o, event);
          }
        }
      }
    }
  }

  lemma IrrelevantEvent(setting: Setting, o: Observed, event: RawEvent)
    requires event.lifecycle.None?
    ensures After(setting, o, event) == o && NoReportedGap(CallsFor(setting, o, event))
  {
  }

  lemma AfterFrames(setting: Setting, o: Observed, event: RawEvent)
    requires event.lifecycle.Some? && event.source.Some? && !Foreign(o, event)
    ensures var next := Advance(FramesOf(o.scopes), ShapeOf(event.lifecycle.value, event.cause));
      next.Some? ==> FramesOf(After(setting, o, event).scopes) == next.value
  {
    hide Run, CallsFor, LifecycleScopes, LifecycleCalls, FramesOf, Advance;
    var definition := DefinitionOf(setting, o.definitions, event.lifecycle.value.key, event.source.value);
    FollowQuiet(o.scopes, event.lifecycle.value, event.cause, MappingOf(definition), o.session.nextId);
  }

  /** The observer's report conforms exactly when the configured roots exist, the event log
      is orderly from its first to its last event, and every entry it caused respects the contracts. */
  lemma ReportIffOrderly(setting: Setting, start: Observed, events: seq<RawEvent>)
    requires Begins(setting, start)
    ensures var end := Observe(setting, start, events);
      ReportOf(Run(setting.operations, setting.roots, end.session, FinishCalls(end))).callsConform <==>
        setting.roots <= setting.operations.Keys && Orderly(setting, events)
        && EntriesConform(setting.operations, setting.roots, end.session.trace)
  {
    hide EntriesConform, Balanced, NoReportedGap, Provenanced, Remembers, AdvanceAll, WellNested, ShapesOfEvents,
      Sound, After, CallsFor;
    var operations, roots := setting.operations, setting.roots;
    var end := Observe(setting, start, events);
    var calls := AllCalls(setting, start, events);
    var finishing := FinishCalls(end);
    SessionIsRun(setting, start, events);
    RunConcat(operations, roots, start.session, calls, finishing);
    ReportIffConforms(operations, roots, start.session, calls + finishing);
    var final := Run(operations, roots, end.session, finishing);
    FinishKeeps(setting, end, calls);
    StacksMoveInLockstep(setting, start, events);
    GapsConcat(calls, finishing);
    GapIfs(end.scopes != [], UNCLOSED_SCOPES);
    QuietIffOrderlySoFar(setting, start, events);
    NestedIffAccepted(ShapesOfEvents(Relevant(events)));
    assert end.scopes == [] <==> FramesOf(end.scopes) == [];
    RunIsSound(operations, roots, start.session, calls);
    BalancedIffClosed(end.session);
    if end.scopes == [] {
      assert FrameIds(end.session.active) == [];
      assert end.session.active == [];
    }
  }

  lemma FinishKeeps(setting: Setting, end: Observed, calls: seq<Call>)
    ensures Run(setting.operations, setting.roots, end.session, FinishCalls(end)).trace == end.session.trace
    ensures ExitCalls(calls + FinishCalls(end)) == ExitCalls(calls)
  {
    GapsKeep(setting.operations, setting.roots, end.session, FinishCalls(end));
    ExitCallsConcat(calls, FinishCalls(end));
    GapsExitNothing(FinishCalls(end));
  }

  // ---------------------------------------------------------------- cached requests are still calls

  ghost function Requests(events: seq<QueryEvent>): nat {
    if events == [] then 0
    else
      var last := events[|events| - 1];
      Requests(events[..|events| - 1]) +
        if last.lifecycle.WillRequest? && last.mapping.Some? && !last.accumulator then 1 else 0
  }

  lemma CheckedByFollowing(setting: Setting, session: State, scopes: seq<Scope>, lifecycle: Lifecycle,
                           cause: Option<RequestCause>,
                           mapping: Option<Mapping>)
    ensures Run(setting.operations, setting.roots, session,
                LifecycleCalls(scopes, lifecycle, cause, mapping)).checkedRequests ==
      session.checkedRequests +
      if lifecycle.WillRequest? && mapping.Some? && cause != Some(AccumulatorTraversal) then 1 else 0
  {
    hide EntryCheck, Run;
    var operations, roots := setting.operations, setting.roots;
    RunNothing(operations, roots, session);
    match lifecycle
    case WillRequest(key) => EnterIfChecks(setting, session, mapping, RequestKind(cause));
    case WillExecute(key) => EnterIfChecks(setting, session, mapping, Validation);
    case DidExecute(key) => CloseChecksNothing(setting, session, scopes, key, true);
    case DidRequest(key, disposition) =>
      var gaps := ReturnCalls(scopes, key, disposition, cause);
      GapsKeep(operations, roots, session, gaps);
      RunConcat(operations, roots, session, gaps, CloseCalls(scopes, key, false));
      CloseChecksNothing(setting, Run(operations, roots, session, gaps), scopes, key, false);
  }

  lemma EnterIfChecks(setting: Setting, session: State, mapping: Option<Mapping>, kind: EntryKind)
    ensures Run(setting.operations, setting.roots, session, EnterIf(mapping, kind)).checkedRequests ==
      session.checkedRequests + if mapping.Some? && kind.Request? then 1 else 0
  {
    hide EntryCheck;
    if mapping.Some? {
      RunSnoc(setting.operations, setting.roots, session, [], EnterCall(mapping.value.operation, None, kind));
    }
  }

  lemma CloseChecksNothing(setting: Setting, session: State, scopes: seq<Scope>, key: QueryKey, execution: bool)
    ensures Run(setting.operations, setting.roots, session, CloseCalls(scopes, key, execution)).checkedRequests
         == session.checkedRequests
  {
    var calls := CloseCalls(scopes, key, execution);
    if calls != [] {
      RunSnoc(setting.operations, setting.roots, session, [], calls[0]);
      assert calls == [] + [calls[0]];
    }
  }

  lemma CheckedStep(setting: Setting, o: Observed, event: RawEvent)
    requires o.session.checkedRequests == Requests(o.events)
    ensures After(setting, o, event).session.checkedRequests == Requests(After(setting, o, event).events)
  {
    hide Run, LifecycleCalls, LifecycleScopes, DefinitionCalls;
    AfterSession(setting, o, event);
    if event.lifecycle.None? || Foreign(o, event) || event.source.None? {
      GapsKeep(setting.operations, setting.roots, o.session, CallsFor(setting, o, event));
    } else {
      var lifecycle, source := event.lifecycle.value, event.source.value;
      var definition := DefinitionOf(setting, o.definitions, lifecycle.key, source);
      var gaps := DefinitionCalls(definition, lifecycle, source, event.cause);
      var mapping := MappingOf(definition);
      DefinitionKeeps(setting, o.session, definition, lifecycle, source, event.cause);
      RunConcat(setting.operations, setting.roots, o.session, gaps,
                LifecycleCalls(o.scopes, lifecycle, event.cause, mapping));
      CheckedByFollowing(setting, Run(setting.operations, setting.roots, o.session, gaps), o.scopes, lifecycle,
                         event.cause, mapping);
      var after := After(setting, o, event);
      assert after.events[..|o.events|] == o.events;
    }
  }

  lemma DefinitionKeeps(setting: Setting, session: State, definition: Definition, lifecycle: Lifecycle,
                        source: QuerySource,
                        cause: Option<RequestCause>)
    ensures Run(setting.operations, setting.roots, session,
                DefinitionCalls(definition, lifecycle, source, cause)).checkedRequests ==
      session.checkedRequests
  {
    GapsKeep(setting.operations, setting.roots, session, DefinitionCalls(definition, lifecycle, source, cause));
  }

  /** Every mapped request is checked against the contracts once, whatever its disposition turns out to be. */
  lemma {:induction false} EveryRequestIsChecked(setting: Setting, start: Observed, events: seq<RawEvent>)
    requires Begins(setting, start)
    ensures Observe(setting, start, events).session.checkedRequests == Requests(Observe(setting, start, events).events)
  {
    if events != [] {
      hide After, Requests;
      EveryRequestIsChecked(setting, start, events[..|events| - 1]);
      CheckedStep(setting, Observe(setting, start, events[..|events| - 1]), events[|events| - 1]);
    } else {
      assert Requests([]) == 0;
    }
  }
}
