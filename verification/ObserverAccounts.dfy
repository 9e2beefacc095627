/** What one lifecycle event does: the operation it enters or leaves, the scopes, and every complaint. */
module ObserverAccounts {
  import opened Wrappers
  import opened ClassModel
  import opened ContractSession
  import opened SessionReference
  import opened SessionReports
  import opened QueryOutcomes
  import opened Observer
  import opened ObserverSoundness

  // ---------------------------------------------------------------- what the observer knows

  /** A query keeps its first definition; a new one is trusted only in a verified file. */
  ghost predicate IsDefinition(setting: Setting, o: Observed, ingredient: nat, source: QuerySource, d: Definition) {
    if ingredient in o.definitions then d == o.definitions[ingredient]
    else
      && d.id == |o.definitions| && d.source == source
      && match setting.lookup(source)
         case Err(error) => d.mapping == Err(error)
         case Ok(mapping) => d.mapping == if mapping.file in setting.verified then Ok(mapping) else Err(SOURCE_MISMATCH)
  }

  predicate OtherThread(o: Observed, event: RawEvent) {
    o.thread.Some? && o.thread != Some(event.thread)
  }

  /** The innermost scope is a request for `key`. */
  predicate InsideRequest(scopes: seq<Scope>, key: QueryKey) {
    scopes != [] && scopes[|scopes| - 1].key == key && scopes[|scopes| - 1].kind.RequestScope?
  }

  predicate InsideExecution(scopes: seq<Scope>, key: QueryKey) {
    scopes != [] && scopes[|scopes| - 1].key == key && scopes[|scopes| - 1].kind.ExecutionScope?
  }

  // ---------------------------------------------------------------- entries and exits

  predicate Stays(before: State, after: State) {
    after.trace == before.trace && after.active == before.active && after.nextId == before.nextId
  }

  /** A mapped query enters its operation, without a receiver; an unmapped one enters nothing. */
  predicate EntersNow(before: State, operation: Option<Key>, kind: EntryKind, after: State) {
    match operation
    case None => Stays(before, after)
    case Some(key) =>
      var caller := if before.active == [] then None else Some(before.active[|before.active| - 1].id);
      var entry := Invocation(before.nextId, caller, key, None, kind);
      && after.trace == before.trace + [Enter(entry)] && after.active == before.active + [entry]
      && after.nextId == before.nextId + 1
  }

  /** The operation the innermost scope had entered, if any, is left. */
  predicate LeavesNow(before: State, scopes: seq<Scope>, after: State)
    requires scopes != []
  {
    match scopes[|scopes| - 1].invocation
    case None => Stays(before, after)
    case Some(id) =>
      && after.trace == before.trace + [Exit(id)] && before.active != []
      && after.active == before.active[..|before.active| - 1] && after.nextId == before.nextId
  }

  predicate ClosesNow(o: Observed, matching: bool, after: Observed)
    requires matching ==> o.scopes != []
  {
    if matching then after.scopes == o.scopes[..|o.scopes| - 1] && LeavesNow(o.session, o.scopes, after.session)
    else after.scopes == o.scopes && Stays(o.session, after.session)
  }

  function ScopeId(o: Observed, operation: Option<Key>): Option<InvocationId> {
    if operation.Some? then Some(o.session.nextId) else None
  }

  /** Requests enter the operation, as validations for accumulators; an execution enters it only
      outside its own request, which it marks instead. */
  predicate FollowAccount(o: Observed, lifecycle: Lifecycle, cause: Option<RequestCause>, operation: Option<Key>,
                          after: Observed) {
    match lifecycle
    case WillRequest(key) =>
      && EntersNow(o.session, operation, if cause == Some(AccumulatorTraversal) then Validation else Request,
                   after.session)
      && after.scopes == o.scopes + [Scope(key, ScopeId(o, operation), RequestScope(false, cause))]
    case WillExecute(key) =>
      if InsideRequest(o.scopes, key) then
        var n := |o.scopes| - 1;
        && Stays(o.session, after.session)
        && after.scopes == o.scopes[..n] + [o.scopes[n].(kind := RequestScope(true, o.scopes[n].kind.cause)),
                                            Scope(key, None, ExecutionScope)]
      else
        && EntersNow(o.session, operation, Validation, after.session)
        && after.scopes == o.scopes + [Scope(key, ScopeId(o, operation), ExecutionScope)]
    case DidExecute(key) => ClosesNow(o, InsideExecution(o.scopes, key), after)
    case DidRequest(key, _) => ClosesNow(o, InsideRequest(o.scopes, key), after)
  }

  /** What an event that is heard is complained about. */
  ghost predicate Complaint(o: Observed, lifecycle: Lifecycle, source: QuerySource, cause: Option<RequestCause>,
                            d: Definition, message: string) {
    || (message == CHANGED_SOURCE && d.source != source)
    || d.mapping == Err(message)
    || (message == NO_CAUSE && (lifecycle.WillRequest? || lifecycle.DidRequest?) && cause.None?)
    || match lifecycle
       case WillRequest(_) => false
       case WillExecute(_) => false
       case DidExecute(key) => message == UNBALANCED && !InsideExecution(o.scopes, key)
       case DidRequest(key, disposition) =>
         if !InsideRequest(o.scopes, key) then message == UNBALANCED
         else
           var kind := o.scopes[|o.scopes| - 1].kind;
           || (message == NOT_EXECUTED && disposition == Executed && !kind.executed)
           || (message == CACHED_AFTER_EXECUTING && disposition in {Reused, Validated} && kind.executed)
           || (message == CHANGED_CAUSE && kind.cause != cause)
  }

  ghost predicate Reports(before: State, after: State, message: string, complaint: bool) {
    Reported(message) in after.gaps <==> Reported(message) in before.gaps || complaint
  }

  ghost predicate ReportsOnly(before: State, after: State, text: string) {
    forall message :: Reported(message) in after.gaps <==> Reported(message) in before.gaps || message == text
  }

  function OperationOf(d: Definition): Option<Key> {
    if d.mapping.Ok? then Some(d.mapping.value.operation) else None
  }

  ghost predicate HeardAccount(setting: Setting, o: Observed, lifecycle: Lifecycle, source: QuerySource,
                               cause: Option<RequestCause>, d: Definition, after: Observed) {
    && IsDefinition(setting, o, lifecycle.key.ingredient, source, d)
    && after.definitions == o.definitions[lifecycle.key.ingredient := d]
    && |after.events| == |o.events| + 1 && after.events[..|o.events|] == o.events
    && after.events[|o.events|] ==
         QueryEvent(lifecycle, d.id, source, if d.mapping.Ok? then Some(d.mapping.value) else None,
                    cause == Some(AccumulatorTraversal))
    && FollowAccount(o, lifecycle, cause, OperationOf(d), after)
    && forall message :: Reports(o.session, after.session, message, Complaint(o, lifecycle, source, cause, d, message))
  }

  /** Everything one event does. */
  ghost predicate EventAccount(setting: Setting, o: Observed, event: RawEvent, after: Observed) {
    if event.lifecycle.None? then after == o
    else if OtherThread(o, event) then
      after == o.(session := after.session) && Stays(o.session, after.session)
      && ReportsOnly(o.session, after.session, OTHER_THREAD)
    else if event.source.None? then
      after == o.(session := after.session, thread := Some(event.thread)) && Stays(o.session, after.session)
      && ReportsOnly(o.session, after.session, NO_SOURCE)
    else
      after.thread == Some(event.thread)
      && exists d :: HeardAccount(setting, o, event.lifecycle.value, event.source.value, event.cause, d, after)
  }

  // ---------------------------------------------------------------- session calls and what they leave

  ghost predicate CallsComplain(calls: seq<Call>, message: string) {
    exists n :: 0 <= n < |calls| && calls[n] == GapCall(message)
  }

  lemma ComplainConcat(a: seq<Call>, b: seq<Call>, message: string)
    ensures CallsComplain(a + b, message) <==> CallsComplain(a, message) || CallsComplain(b, message)
  {
    var all := a + b;
    assert forall n :: 0 <= n < |a| ==> all[n] == a[n];
    assert forall n :: 0 <= n < |b| ==> all[|a| + n] == b[n];
    if n :| 0 <= n < |b| && b[n] == GapCall(message) {
      assert all[|a| + n] == GapCall(message);
    }
  }

  lemma GapIfComplains(condition: bool, text: string, message: string)
    ensures CallsComplain(GapIf(condition, text), message) <==> condition && message == text
  {
    if condition {
      assert GapIf(condition, text)[0] == GapCall(text);
    }
  }

  /** Only reported gaps put reported gaps into a session. */
  lemma {:induction false} RunReports(setting: Setting, start: State, calls: seq<Call>, message: string)
    ensures Reports(start, Run(setting.operations, setting.roots, start, calls), message, CallsComplain(calls, message))
  {
    if calls != [] {
      hide EntryCheck;
      var n := |calls| - 1;
      var before := Run(setting.operations, setting.roots, start, calls[..n]);
      RunReports(setting, start, calls[..n], message);
      assert calls == calls[..n] + [calls[n]];
      ComplainConcat(calls[..n], [calls[n]], message);
      assert CallsComplain([calls[n]], message) <==> calls[n] == GapCall(message) by {
        assert [calls[n]][0] == calls[n];
      }
      if calls[n].EnterCall? {
        var entry := Entered(before, calls[n].operation, calls[n].receiver, calls[n].kind);
        EntryFindings(setting.operations, setting.roots, before.active, entry);
      }
    }
  }

  lemma GapsStay(setting: Setting, start: State, calls: seq<Call>)
    requires forall i :: 0 <= i < |calls| ==> calls[i].GapCall?
    ensures Stays(start, Run(setting.operations, setting.roots, start, calls))
  {
    GapsKeep(setting.operations, setting.roots, start, calls);
  }

  lemma EnterIfEnters(setting: Setting, start: State, mapping: Option<Mapping>, kind: EntryKind)
    ensures EntersNow(start, if mapping.Some? then Some(mapping.value.operation) else None, kind,
                      Run(setting.operations, setting.roots, start, EnterIf(mapping, kind)))
  {
    hide EntryCheck;
    if mapping.Some? {
      RunSnoc(setting.operations, setting.roots, start, [], EnterCall(mapping.value.operation, None, kind));
      assert EnterIf(mapping, kind) == [] + [EnterCall(mapping.value.operation, None, kind)];
    }
  }

  lemma CloseLeaves(setting: Setting, start: State, scopes: seq<Scope>, calls: seq<Call>, key: QueryKey,
                    execution: bool)
    requires Lockstep(start, scopes, calls)
    ensures var after := Run(setting.operations, setting.roots, start, CloseCalls(scopes, key, execution));
      if TopCloses(scopes, key, execution) then LeavesNow(start, scopes, after) else Stays(start, after)
  {
    if !TopCloses(scopes, key, execution) {
      GapsStay(setting, start, CloseCalls(scopes, key, execution));
    } else if scopes[|scopes| - 1].invocation.Some? {
      var id := scopes[|scopes| - 1].invocation.value;
      TopIdMatches(start, scopes, calls, id);
      RunSnoc(setting.operations, setting.roots, start, [], ExitCall(id));
      assert CloseCalls(scopes, key, execution) == [] + [ExitCall(id)];
    }
  }

  lemma TopIdMatches(start: State, scopes: seq<Scope>, calls: seq<Call>, id: InvocationId)
    requires Lockstep(start, scopes, calls) && scopes != [] && scopes[|scopes| - 1].invocation == Some(id)
    ensures IsActiveTop(start.active, id)
  {
    var ids, frames := ScopeIds(scopes), FrameIds(start.active);
    assert ids[|ids| - 1] == id;
    assert frames[|frames| - 1] == start.active[|start.active| - 1].id;
  }

  lemma CloseComplains(scopes: seq<Scope>, key: QueryKey, execution: bool, message: string)
    ensures CallsComplain(CloseCalls(scopes, key, execution), message)
       <==> !TopCloses(scopes, key, execution) && message == UNBALANCED
  {
    if !TopCloses(scopes, key, execution) {
      assert CloseCalls(scopes, key, execution)[0] == GapCall(UNBALANCED);
    }
  }

  lemma ReturnComplains(scopes: seq<Scope>, key: QueryKey, disposition: Disposition, cause: Option<RequestCause>,
                        message: string)
    ensures CallsComplain(ReturnCalls(scopes, key, disposition, cause), message) <==>
      InsideRequest(scopes, key)
      && var kind := scopes[|scopes| - 1].kind;
         || (message == NOT_EXECUTED && disposition == Executed && !kind.executed)
         || (message == CACHED_AFTER_EXECUTING && disposition in {Reused, Validated} && kind.executed)
         || (message == CHANGED_CAUSE && kind.cause != cause)
  {
    hide CallsComplain, GapIf;
    if InsideRequest(scopes, key) {
      var kind := scopes[|scopes| - 1].kind;
      var a := GapIf(disposition.Executed? && !kind.executed, NOT_EXECUTED);
      var b := GapIf((disposition.Reused? || disposition.Validated?) && kind.executed, CACHED_AFTER_EXECUTING);
      GapIfComplains(disposition.Executed? && !kind.executed, NOT_EXECUTED, message);
      GapIfComplains((disposition.Reused? || disposition.Validated?) && kind.executed, CACHED_AFTER_EXECUTING, message);
      GapIfComplains(kind.cause != cause, CHANGED_CAUSE, message);
      ComplainConcat(a, b, message);
      ComplainConcat(a + b, GapIf(kind.cause != cause, CHANGED_CAUSE), message);
    } else {
      assert !CallsComplain([], message) by {
        GapIfComplains(false, "", message);
        SingleGap("");
      }
    }
  }

  lemma DefinitionComplains(d: Definition, lifecycle: Lifecycle, source: QuerySource, cause: Option<RequestCause>,
                            message: string)
    ensures CallsComplain(DefinitionCalls(d, lifecycle, source, cause), message) <==>
      || (message == CHANGED_SOURCE && d.source != source)
      || d.mapping == Err(message)
      || (message == NO_CAUSE && (lifecycle.WillRequest? || lifecycle.DidRequest?) && cause.None?)
  {
    hide CallsComplain, GapIf;
    var a := GapIf(d.source != source, CHANGED_SOURCE);
    var text := if d.mapping.Err? then d.mapping.error else "";
    var b := if d.mapping.Err? then [GapCall(d.mapping.error)] else [];
    assert b == GapIf(d.mapping.Err?, text) by {
      SingleGap(text);
    }
    GapIfComplains(d.source != source, CHANGED_SOURCE, message);
    GapIfComplains(d.mapping.Err?, text, message);
    GapIfComplains(NeedsCause(lifecycle) && cause.None?, NO_CAUSE, message);
    ComplainConcat(a, b, message);
    ComplainConcat(a + b, GapIf(NeedsCause(lifecycle) && cause.None?, NO_CAUSE), message);
  }

  // ---------------------------------------------------------------- the accounts

  /** What the session looks like after the lifecycle part of an event. */
  lemma FollowAccounts(setting: Setting, o: Observed, calls: seq<Call>, lifecycle: Lifecycle,
                       cause: Option<RequestCause>, d: Definition, after: Observed)
    requires Lockstep(o.session, o.scopes, calls)
    requires after.scopes == LifecycleScopes(o.scopes, lifecycle, cause, MappingOf(d), o.session.nextId)
    requires after.session == Run(setting.operations, setting.roots, o.session,
                                  LifecycleCalls(o.scopes, lifecycle, cause, MappingOf(d)))
    ensures FollowAccount(o, lifecycle, cause, OperationOf(d), after)
  {
    hide Lockstep, Run, EnterIf, CloseCalls, ReturnCalls;
    match lifecycle
    case WillRequest(key) => EnterIfEnters(setting, o.session, MappingOf(d), RequestKind(cause));
    case WillExecute(key) =>
      if InsideRequest(o.scopes, key) {
        GapsStay(setting, o.session, []);
        ScopesTogether(o.scopes, key);
      } else {
        UnmarkedScopes(o.scopes, key);
        EnterIfEnters(setting, o.session, MappingOf(d), Validation);
      }
    case DidExecute(key) => CloseLeaves(setting, o.session, o.scopes, calls, key, true);
    case DidRequest(key, disposition) =>
      var gaps := ReturnCalls(o.scopes, key, disposition, cause);
      var middle := Run(setting.operations, setting.roots, o.session, gaps);
      ReturnsAreGaps(o.scopes, key, disposition, cause);
      LockstepGaps(setting, o.session, o.scopes, calls, gaps);
      GapsStay(setting, o.session, gaps);
      RunConcat(setting.operations, setting.roots, o.session, gaps, CloseCalls(o.scopes, key, false));
      CloseLeaves(setting, middle, o.scopes, calls + gaps, key, false);
  }

  lemma ReturnsAreGaps(scopes: seq<Scope>, key: QueryKey, disposition: Disposition, cause: Option<RequestCause>)
    ensures var calls := ReturnCalls(scopes, key, disposition, cause);
      forall i :: 0 <= i < |calls| ==> calls[i].GapCall?
  {
  }

  lemma ScopesTogether(scopes: seq<Scope>, key: QueryKey)
    requires InsideRequest(scopes, key)
    ensures var n := |scopes| - 1;
      ScopesMarked(scopes, key) + [Scope(key, None, ExecutionScope)] ==
      scopes[..n] + [scopes[n].(kind := RequestScope(true, scopes[n].kind.cause)), Scope(key, None, ExecutionScope)]
  {
  }

  lemma LifecycleComplains(o: Observed, lifecycle: Lifecycle, source: QuerySource, cause: Option<RequestCause>,
                           d: Definition, message: string)
    ensures CallsComplain(DefinitionCalls(d, lifecycle, source, cause)
                            + LifecycleCalls(o.scopes, lifecycle, cause, MappingOf(d)), message)
       <==> Complaint(o, lifecycle, source, cause, d, message)
  {
    hide CallsComplain, DefinitionCalls, ReturnCalls, CloseCalls;
    ComplainConcat(DefinitionCalls(d, lifecycle, source, cause),
                   LifecycleCalls(o.scopes, lifecycle, cause, MappingOf(d)), message);
    DefinitionComplains(d, lifecycle, source, cause, message);
    match lifecycle
    case WillRequest(_) => EntriesComplainNot(MappingOf(d), RequestKind(cause), message);
    case WillExecute(_) => EntriesComplainNot(MappingOf(d), Validation, message);
    case DidExecute(key) => CloseComplains(o.scopes, key, true, message);
    case DidRequest(key, disposition) =>
      ComplainConcat(ReturnCalls(o.scopes, key, disposition, cause), CloseCalls(o.scopes, key, false), message);
      ReturnComplains(o.scopes, key, disposition, cause, message);
      CloseComplains(o.scopes, key, false, message);
  }

  lemma EntriesComplainNot(mapping: Option<Mapping>, kind: EntryKind, message: string)
    ensures !CallsComplain(EnterIf(mapping, kind), message) && !CallsComplain([], message)
  {
  }

  lemma HeardAccounts(setting: Setting, o: Observed, calls: seq<Call>, event: RawEvent)
    requires Lockstep(o.session, o.scopes, calls)
    requires event.lifecycle.Some? && event.source.Some? && !Foreign(o, event)
    ensures var d := DefinitionOf(setting, o.definitions, event.lifecycle.value.key, event.source.value);
      HeardAccount(setting, o, event.lifecycle.value, event.source.value, event.cause, d, After(setting, o, event))
  {
    hide Lockstep, Run, LifecycleCalls, LifecycleScopes, DefinitionCalls, FollowAccount, Complaint, Reports;
    var lifecycle, source, cause := event.lifecycle.value, event.source.value, event.cause;
    var d := DefinitionOf(setting, o.definitions, lifecycle.key, source);
    var gaps := DefinitionCalls(d, lifecycle, source, cause);
    var following := LifecycleCalls(o.scopes, lifecycle, cause, MappingOf(d));
    var after := After(setting, o, event);
    var middle := Run(setting.operations, setting.roots, o.session, gaps);
    DefinitionsAreGaps(d, lifecycle, source, cause);
    LockstepGaps(setting, o.session, o.scopes, calls, gaps);
    GapsStay(setting, o.session, gaps);
    RunConcat(setting.operations, setting.roots, o.session, gaps, following);
    FollowAccounts(setting, o.(session := middle), calls + gaps, lifecycle, cause, d, after);
    FollowFromThere(o, middle, lifecycle, cause, OperationOf(d), after);
    forall message
      ensures Reports(o.session, after.session, message, Complaint(o, lifecycle, source, cause, d, message))
    {
      RunReports(setting, o.session, gaps + following, message);
      LifecycleComplains(o, lifecycle, source, cause, d, message);
    }
  }

  lemma DefinitionsAreGaps(d: Definition, lifecycle: Lifecycle, source: QuerySource, cause: Option<RequestCause>)
    ensures var calls := DefinitionCalls(d, lifecycle, source, cause);
      forall i :: 0 <= i < |calls| ==> calls[i].GapCall?
  {
  }

  /** Gaps reported first make no difference to what is entered and left. */
  lemma FollowFromThere(o: Observed, middle: State, lifecycle: Lifecycle, cause: Option<RequestCause>,
                        operation: Option<Key>, after: Observed)
    requires Stays(o.session, middle) && FollowAccount(o.(session := middle), lifecycle, cause, operation, after)
    ensures FollowAccount(o, lifecycle, cause, operation, after)
  {
  }

  lemma OneReport(setting: Setting, start: State, text: string)
    ensures ReportsOnly(start, Run(setting.operations, setting.roots, start, [GapCall(text)]), text)
  {
    hide Run, CallsComplain;
    var after := Run(setting.operations, setting.roots, start, [GapCall(text)]);
    forall message
      ensures Reported(message) in after.gaps <==> Reported(message) in start.gaps || message == text
    {
      RunReports(setting, start, [GapCall(text)], message);
      GapIfComplains(true, text, message);
      SingleGap(text);
    }
  }

  /** For any event in any reachable state: what is entered, left, remembered and complained about. */
  lemma EventAccounts(setting: Setting, o: Observed, calls: seq<Call>, event: RawEvent)
    requires Lockstep(o.session, o.scopes, calls)
    ensures EventAccount(setting, o, event, After(setting, o, event))
  {
    hide Lockstep, Run, LifecycleCalls, LifecycleScopes, DefinitionCalls, HeardAccount, Reports;
    if event.lifecycle.Some? && (Foreign(o, event) || event.source.None?) {
      var text := if Foreign(o, event) then OTHER_THREAD else NO_SOURCE;
      var after := After(setting, o, event);
      assert CallsFor(setting, o, event) == [GapCall(text)];
      GapsStay(setting, o.session, [GapCall(text)]);
      OneReport(setting, o.session, text);
    } else if event.lifecycle.Some? {
      HeardAccounts(setting, o, calls, event);
    }
  }

  /** The same over whole runs: after any events the next one does exactly what its account says, and
      the final report is that of the session calls made, with a gap if scopes are still open. */
  lemma RunAccounts(setting: Setting, start: Observed, events: seq<RawEvent>, event: RawEvent)
    requires Begins(setting, start)
    ensures EventAccount(setting, Observe(setting, start, events), event, Observe(setting, start, events + [event]))
    ensures var end := Observe(setting, start, events);
      var unclosed := if end.scopes == [] then [] else [GapCall(UNCLOSED_SCOPES)];
      Accounts(setting.operations, setting.roots, AllCalls(setting, start, events) + unclosed,
               ReportOf(Run(setting.operations, setting.roots, end.session, FinishCalls(end))))
  {
    hide EventAccount, Accounts, Run, After, CallsFor, Lockstep;
    var end := Observe(setting, start, events);
    StacksMoveInLockstep(setting, start, events);
    EventAccounts(setting, end, AllCalls(setting, start, events), event);
    assert (events + [event])[..|events|] == events;
    SessionIsRun(setting, start, events);
    RunConcat(setting.operations, setting.roots, start.session, AllCalls(setting, start, events), FinishCalls(end));
    ReportAccounts(setting.operations, setting.roots, start.session,
                   AllCalls(setting, start, events) + FinishCalls(end));
  }
}
