/** Driving a contract session from the lifecycle events of cached queries. */
module Observer {
  import opened Wrappers
  import opened ClassModel
  import opened Contracts
  import opened QueryOutcomes
  import opened ContractSession
  import opened SessionReference

  datatype QueryKey = QueryKey(ingredient: nat, index: nat)

  datatype RequestCause = Fetch | AccumulatorTraversal

  datatype Lifecycle =
    | WillRequest(key: QueryKey)
    | WillExecute(key: QueryKey)
    | DidExecute(key: QueryKey)
    | DidRequest(key: QueryKey, disposition: Disposition)

  datatype QuerySource = QuerySource(file: string, line: nat)

  /** `lifecycle` is `None` for the events the observer does not look at. */
  datatype RawEvent =
    RawEvent(lifecycle: Option<Lifecycle>, thread: nat, source: Option<QuerySource>, cause: Option<RequestCause>)

  datatype Mapping = Mapping(operation: Key, file: string)

  datatype Definition = Definition(id: nat, source: QuerySource, mapping: Result<Mapping, string>)

  datatype QueryEvent = QueryEvent(lifecycle: Lifecycle, definition: nat, source: QuerySource,
                                   mapping: Option<Mapping>, accumulator: bool)

  datatype ScopeKind = RequestScope(executed: bool, cause: Option<RequestCause>) | ExecutionScope

  datatype Scope = Scope(key: QueryKey, invocation: Option<InvocationId>, kind: ScopeKind)

  /** What never changes while observing: contracts, roots, and the source correspondence. */
  datatype Setting = Setting(
    operations: Operations, roots: set<Key>, lookup: QuerySource -> Result<Mapping, string>, verified: set<string>)

  datatype Observed = Observed(
    session: State, scopes: seq<Scope>, events: seq<QueryEvent>, definitions: map<nat, Definition>, thread: Option<nat>)

  const OTHER_THREAD := "received events on another thread"
  const NO_SOURCE := "no source provenance"
  const CHANGED_SOURCE := "definition changed source provenance"
  const NO_CAUSE := "request lacks its cause"
  const NOT_EXECUTED := "returned Executed without execution events"
  const CACHED_AFTER_EXECUTING := "returned a cached disposition after executing"
  const CHANGED_CAUSE := "cause changed between entry and return"
  const UNBALANCED := "scopes must close in nesting order"
  const UNCLOSED_SCOPES := "unclosed scopes"
  const SOURCE_MISMATCH := "source mismatch"

  // ---------------------------------------------------------------- one event

  /** Only mappings into files known to match the running binary are trusted. */
  function Resolve(setting: Setting, source: QuerySource): Result<Mapping, string> {
    match setting.lookup(source)
    case Ok(mapping) => if mapping.file in setting.verified then Ok(mapping) else Err(SOURCE_MISMATCH)
    case Err(error) => Err(error)
  }

  function DefinitionOf(setting: Setting, definitions: map<nat, Definition>, key: QueryKey,
                        source: QuerySource): Definition {
    if key.ingredient in definitions then definitions[key.ingredient]
    else Definition(|definitions|, source, Resolve(setting, source))
  }

  function MappingOf(definition: Definition): Option<Mapping> {
    if definition.mapping.Ok? then Some(definition.mapping.value) else None
  }

  function GapIf(condition: bool, message: string): seq<Call> {
    if condition then [GapCall(message)] else []
  }

  function NeedsCause(lifecycle: Lifecycle): bool {
    lifecycle.WillRequest? || lifecycle.DidRequest?
  }

  function DefinitionCalls(definition: Definition, lifecycle: Lifecycle, source: QuerySource,
                           cause: Option<RequestCause>): seq<Call> {
    GapIf(definition.source != source, CHANGED_SOURCE) +
    (if definition.mapping.Err? then [GapCall(definition.mapping.error)] else []) +
    GapIf(NeedsCause(lifecycle) && cause.None?, NO_CAUSE)
  }

  predicate TopRequests(scopes: seq<Scope>, key: QueryKey) {
    scopes != [] && scopes[|scopes| - 1].key == key && scopes[|scopes| - 1].kind.RequestScope?
  }

  predicate TopCloses(scopes: seq<Scope>, key: QueryKey, execution: bool) {
    scopes != [] && scopes[|scopes| - 1].key == key && scopes[|scopes| - 1].kind.ExecutionScope? == execution
  }

  function ReturnCalls(scopes: seq<Scope>, key: QueryKey, disposition: Disposition,
                       cause: Option<RequestCause>): seq<Call> {
    if TopRequests(scopes, key) then
      var kind := scopes[|scopes| - 1].kind;
      GapIf(disposition.Executed? && !kind.executed, NOT_EXECUTED) +
      GapIf((disposition.Reused? || disposition.Validated?) && kind.executed, CACHED_AFTER_EXECUTING) +
      GapIf(kind.cause != cause, CHANGED_CAUSE)
    else []
  }

  function CloseCalls(scopes: seq<Scope>, key: QueryKey, execution: bool): seq<Call> {
    if !TopCloses(scopes, key, execution) then [GapCall(UNBALANCED)]
    else match scopes[|scopes| - 1].invocation
         case Some(id) => [ExitCall(id)]
         case None => []
  }

  function ScopesClosed(scopes: seq<Scope>, key: QueryKey, execution: bool): seq<Scope> {
    if TopCloses(scopes, key, execution) then scopes[..|scopes| - 1] else scopes
  }

  /** An execution inside its own request is that request's work, not another call. */
  function ScopesMarked(scopes: seq<Scope>, key: QueryKey): seq<Scope> {
    if TopRequests(scopes, key) then
      var top := scopes[|scopes| - 1];
      scopes[..|scopes| - 1] + [top.(kind := RequestScope(true, top.kind.cause))]
    else scopes
  }

  function EnterIf(mapping: Option<Mapping>, kind: EntryKind): seq<Call> {
    if mapping.Some? then [EnterCall(mapping.value.operation, None, kind)] else []
  }

  function IdIf(mapping: Option<Mapping>, id: InvocationId): Option<InvocationId> {
    if mapping.Some? then Some(id) else None
  }

  function RequestKind(cause: Option<RequestCause>): EntryKind {
    if cause == Some(AccumulatorTraversal) then Validation else Request
  }

  function LifecycleCalls(scopes: seq<Scope>, lifecycle: Lifecycle, cause: Option<RequestCause>,
                          mapping: Option<Mapping>): seq<Call> {
    match lifecycle
    case WillRequest(key) => EnterIf(mapping, RequestKind(cause))
    case WillExecute(key) => if TopRequests(scopes, key) then [] else EnterIf(mapping, Validation)
    case DidExecute(key) => CloseCalls(scopes, key, true)
    case DidRequest(key, disposition) => ReturnCalls(scopes, key, disposition, cause) + CloseCalls(scopes, key, false)
  }

  function LifecycleScopes(
    scopes: seq<Scope>, lifecycle: Lifecycle, cause: Option<RequestCause>, mapping: Option<Mapping>,
    id: InvocationId): seq<Scope>
  {
    match lifecycle
    case WillRequest(key) => scopes + [Scope(key, IdIf(mapping, id), RequestScope(false, cause))]
    case WillExecute(key) =>
      ScopesMarked(scopes, key)
        + [Scope(key, if TopRequests(scopes, key) then None else IdIf(mapping, id), ExecutionScope)]
    case DidExecute(key) => ScopesClosed(scopes, key, true)
    case DidRequest(key, disposition) => ScopesClosed(scopes, key, false)
  }

  predicate Foreign(o: Observed, event: RawEvent) {
    o.thread.Some? && o.thread.value != event.thread
  }

  /** The session calls one event causes. */
  function CallsFor(setting: Setting, o: Observed, event: RawEvent): seq<Call> {
    if event.lifecycle.None? then []
    else if Foreign(o, event) then [GapCall(OTHER_THREAD)]
    else if event.source.None? then [GapCall(NO_SOURCE)]
    else
      var lifecycle, source := event.lifecycle.value, event.source.value;
      var definition := DefinitionOf(setting, o.definitions, lifecycle.key, source);
      DefinitionCalls(definition, lifecycle, source, event.cause) +
      LifecycleCalls(o.scopes, lifecycle, event.cause, MappingOf(definition))
  }

  ghost function After(setting: Setting, o: Observed, event: RawEvent): Observed {
    var session := Run(setting.operations, setting.roots, o.session, CallsFor(setting, o, event));
    if event.lifecycle.None? then o
    else if Foreign(o, event) then o.(session := session)
    else if event.source.None? then o.(session := session, thread := Some(event.thread))
    else
      var lifecycle, source := event.lifecycle.value, event.source.value;
      var definition := DefinitionOf(setting, o.definitions, lifecycle.key, source);
      var mapping := MappingOf(definition);
      Observed(
        session, LifecycleScopes(o.scopes, lifecycle, event.cause, mapping, o.session.nextId),
        o.events + [QueryEvent(lifecycle, definition.id, source, mapping, event.cause == Some(AccumulatorTraversal))],
        o.definitions[lifecycle.key.ingredient := definition], Some(event.thread))
  }

  function FinishCalls(o: Observed): seq<Call> {
    GapIf(o.scopes != [], UNCLOSED_SCOPES)
  }

  // ---------------------------------------------------------------- the observer object

  lemma RunSnoc(operations: Operations, roots: set<Key>, start: State, calls: seq<Call>, call: Call)
    ensures Run(operations, roots, start, calls + [call])
         == Step(operations, roots, Run(operations, roots, start, calls), call)
  {
    assert (calls + [call])[..|calls|] == calls;
  }

  lemma {:induction false} RunConcat(operations: Operations, roots: set<Key>, start: State, a: seq<Call>, b: seq<Call>)
    ensures Run(operations, roots, start, a + b) == Run(operations, roots, Run(operations, roots, start, a), b)
  {
    hide Step;
    if b == [] {
      assert a + b == a;
    } else {
      var n := |b| - 1;
      RunConcat(operations, roots, start, a, b[..n]);
      assert a + b == (a + b[..n]) + [b[n]];
      RunSnoc(operations, roots, start, a + b[..n], b[n]);
    }
  }

  class SalsaObserver {
    const setting: Setting
    const session: Session
    var scopes: seq<Scope>
    var events: seq<QueryEvent>
    var definitions: map<nat, Definition>
    var thread: Option<nat>

    ghost predicate Valid()
      reads this, session
    {
      session.operations == setting.operations && session.roots == setting.roots
    }

    ghost function View(): Observed
      reads this, session
    {
      Observed(session.View(), scopes, events, definitions, thread)
    }

    constructor (setting: Setting)
      ensures Valid() && fresh(session) && this.setting == setting
      ensures Initial(setting.operations, setting.roots, session.View())
      ensures View() == Observed(session.View(), [], [], map[], None)
    {
      this.setting := setting;
      session := new Session(setting.operations, setting.roots);
      scopes, events, definitions, thread := [], [], map[], None;
    }

    method RecordGapIf(condition: bool, message: string)
      requires Valid()
      modifies session
      ensures session.View() == Run(setting.operations, setting.roots, old(session.View()), GapIf(condition, message))
    {
      if condition {
        session.RecordGap(message);
        RunSnoc(setting.operations, setting.roots, old(session.View()), [], GapCall(message));
      }
    }

    method RecordGaps(a: bool, first: string, b: bool, second: string, c: bool, third: string)
      requires Valid()
      modifies session
      ensures session.View() == Run(setting.operations, setting.roots, old(session.View()),
                                    GapIf(a, first) + GapIf(b, second) + GapIf(c, third))
    {
      hide Run, GapIf;
      ghost var start := session.View();
      RecordGapIf(a, first);
      RecordGapIf(b, second);
      RunConcat(setting.operations, setting.roots, start, GapIf(a, first), GapIf(b, second));
      RecordGapIf(c, third);
      RunConcat(setting.operations, setting.roots, start, GapIf(a, first) + GapIf(b, second), GapIf(c, third));
    }

    method CheckDefinition(definition: Definition, lifecycle: Lifecycle, source: QuerySource,
                           cause: Option<RequestCause>)
      requires Valid()
      modifies session
      ensures session.View() ==
        Run(setting.operations, setting.roots, old(session.View()),
            DefinitionCalls(definition, lifecycle, source, cause))
    {
      hide Run;
      var operations, roots := setting.operations, setting.roots;
      ghost var start := session.View();
      RecordGapIf(definition.source != source, CHANGED_SOURCE);
      match definition.mapping {
        case Ok(mapping) => RecordGapIf(false, "");
        case Err(error) => RecordGapIf(true, error);
      }
      ghost var second := if definition.mapping.Err? then [GapCall(definition.mapping.error)] else [];
      RunConcat(operations, roots, start, GapIf(definition.source != source, CHANGED_SOURCE), second);
      RecordGapIf(NeedsCause(lifecycle) && cause.None?, NO_CAUSE);
      RunConcat(operations, roots, start, GapIf(definition.source != source, CHANGED_SOURCE) + second,
                GapIf(NeedsCause(lifecycle) && cause.None?, NO_CAUSE));
    }

    method EnterScope(mapping: Option<Mapping>, kind: EntryKind) returns (id: Option<InvocationId>)
      requires Valid()
      modifies session
      ensures id == IdIf(mapping, old(session.nextId))
      ensures session.View() == Run(setting.operations, setting.roots, old(session.View()), EnterIf(mapping, kind))
    {
      id := None;
      if mapping.Some? {
        var entered := session.EnterWithKind(mapping.value.operation, None, kind);
        id := Some(entered);
        RunSnoc(setting.operations, setting.roots, old(session.View()), [],
                EnterCall(mapping.value.operation, None, kind));
      }
    }

    method Exit(key: QueryKey, execution: bool)
      requires Valid()
      modifies this`scopes, session
      ensures scopes == ScopesClosed(old(scopes), key, execution)
      ensures session.View()
           == Run(setting.operations, setting.roots, old(session.View()), CloseCalls(old(scopes), key, execution))
    {
      if !TopCloses(scopes, key, execution) {
        RecordGapIf(true, UNBALANCED);
        return;
      }
      var scope := scopes[|scopes| - 1];
      scopes := scopes[..|scopes| - 1];
      if scope.invocation.Some? {
        session.Exit(scope.invocation.value);
        RunSnoc(setting.operations, setting.roots, old(session.View()), [], ExitCall(scope.invocation.value));
      }
    }

    method CheckReturn(key: QueryKey, disposition: Disposition, cause: Option<RequestCause>)
      requires Valid()
      modifies session
      ensures session.View()
           == Run(setting.operations, setting.roots, old(session.View()), ReturnCalls(scopes, key, disposition, cause))
    {
      if TopRequests(scopes, key) {
        var kind := scopes[|scopes| - 1].kind;
        var skipped := disposition.Executed? && !kind.executed;
        var cached := (disposition.Reused? || disposition.Validated?) && kind.executed;
        RecordGaps(skipped, NOT_EXECUTED, cached, CACHED_AFTER_EXECUTING, kind.cause != cause, CHANGED_CAUSE);
      }
    }

    method Follow(lifecycle: Lifecycle, cause: Option<RequestCause>, mapping: Option<Mapping>)
      requires Valid()
      modifies this`scopes, session
      ensures scopes == LifecycleScopes(old(scopes), lifecycle, cause, mapping, old(session.nextId))
      ensures session.View() ==
        Run(setting.operations, setting.roots, old(session.View()),
            LifecycleCalls(old(scopes), lifecycle, cause, mapping))
    {
      match lifecycle {
        case WillRequest(key) =>
          var id := EnterScope(mapping, RequestKind(cause));
          scopes := scopes + [Scope(key, id, RequestScope(false, cause))];
        case DidRequest(key, disposition) =>
          CheckReturn(key, disposition, cause);
          Exit(key, false);
          RunConcat(setting.operations, setting.roots, old(session.View()),
                    ReturnCalls(old(scopes), key, disposition, cause), CloseCalls(old(scopes), key, false));
        case WillExecute(key) =>
          var requested := TopRequests(scopes, key);
          var id := None;
          if requested {
            var top := scopes[|scopes| - 1];
            scopes := scopes[..|scopes| - 1] + [top.(kind := RequestScope(true, top.kind.cause))];
          } else {
            id := EnterScope(mapping, Validation);
          }
          scopes := scopes + [Scope(key, id, ExecutionScope)];
        case DidExecute(key) =>
          Exit(key, true);
      }
    }

    method Event(event: RawEvent)
      requires Valid()
      modifies this, session
      ensures Valid() && View() == After(setting, old(View()), event)
    {
      hide Run, LifecycleCalls, LifecycleScopes, DefinitionCalls;
      if event.lifecycle.None? {
        assert Run(setting.operations, setting.roots, session.View(), []) == session.View() by {
          RunNothing(setting.operations, setting.roots, session.View());
        }
        return;
      }
      if thread.Some? && thread.value != event.thread {
        RecordGapIf(true, OTHER_THREAD);
        return;
      }
      thread := Some(event.thread);
      if event.source.None? {
        RecordGapIf(true, NO_SOURCE);
        return;
      }
      var lifecycle, source := event.lifecycle.value, event.source.value;
      var definition := DefinitionOf(setting, definitions, lifecycle.key, source);
      definitions := definitions[lifecycle.key.ingredient := definition];
      CheckDefinition(definition, lifecycle, source, event.cause);
      var mapping := MappingOf(definition);
      events :=
        events + [QueryEvent(lifecycle, definition.id, source, mapping, event.cause == Some(AccumulatorTraversal))];
      DefinitionKeepsId(setting, old(session.View()), definition, lifecycle, source, event.cause);
      Follow(lifecycle, event.cause, mapping);
      RunConcat(setting.operations, setting.roots, old(session.View()),
                DefinitionCalls(definition, lifecycle, source, event.cause),
                LifecycleCalls(old(scopes), lifecycle, event.cause, mapping));
    }

    /** Consumes the observer. */
    method Finish() returns (report: Report, seen: seq<QueryEvent>)
      requires Valid()
      modifies session
      ensures report == ReportOf(Run(setting.operations, setting.roots, old(session.View()), FinishCalls(old(View()))))
      ensures seen == events
    {
      RecordGapIf(scopes != [], UNCLOSED_SCOPES);
      report := session.Finish();
      seen := events;
    }
  }

  lemma RunNothing(operations: Operations, roots: set<Key>, start: State)
    ensures Run(operations, roots, start, []) == start
  {
  }

  lemma DefinitionKeepsId(setting: Setting, start: State, definition: Definition, lifecycle: Lifecycle,
                          source: QuerySource,
                          cause: Option<RequestCause>)
    ensures Run(setting.operations, setting.roots, start,
                DefinitionCalls(definition, lifecycle, source, cause)).nextId == start.nextId
  {
    GapsKeep(setting.operations, setting.roots, start, DefinitionCalls(definition, lifecycle, source, cause));
  }

  /** Reporting gaps leaves everything else of a session alone. */
  lemma {:induction false} GapsKeep(operations: Operations, roots: set<Key>, start: State, calls: seq<Call>)
    requires forall i :: 0 <= i < |calls| ==> calls[i].GapCall?
    ensures var end := Run(operations, roots, start, calls); end == start.(gaps := end.gaps)
  {
    if calls != [] {
      GapsKeep(operations, roots, start, calls[..|calls| - 1]);
    }
  }
}
