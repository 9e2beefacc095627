# Verified core of the sage workspace

A Dafny model of the parts of the repository whose guarantees only show over whole
runs: the architectural contract checker, type substitution across arenas, the query
trace recorder, the inspector's frozen products and history, transactional file
watching, and the `.sage` type syntax. `dafny verify dfyconfig.toml` checks everything.

## What is proved

**Contract checking** (`ClassModel`, `PathSearch`, `StaticCheck`, `Contracts`,
`ContractSession`, `SessionReference`, `SessionReports`, `StaticSoundness`,
`DispatchGap`, `DispatchSearch`). Validation resolves inheritance and dispatch and
searches the declared calls for forbidden paths; a session checks a live stack against
the resolved contracts. Each side is proved against a reference that knows neither the
queue nor the stack, and `StaticCheckIsExact` joins them: the static search finds nothing
exactly when no run of declared requests can be reported. The runtime also admits
dispatch frames, which the static graph does not contain; `DispatchGap` gives an accepted
model whose dispatch run is reported, `SafeIffNeverForbidden` says exactly when dispatch
runs are safe too, and `DispatchSearchIsExact` decides it: the same search over the graph
with dispatch edges. What dispatch, the errors, the resolved contracts and the session
report consist of is stated without the functions that compute them (`TargetsDispatch`,
`Diagnoses`, `ContractSays`, `SessionReports.ReportAccounts`).

**Observed queries** (`Observer`, `QueryNesting`, `ObserverSoundness`,
`ObserverAccounts`). The observer drives a session from raw lifecycle events. Its scope
stack and the session's stack never part, its report conforms exactly on orderly event
logs, and what each event enters, leaves, remembers and complains about is stated for
every reachable state.

**Types across arenas** (`TypeArena`, `TypeFold`, `TypePositions`, `TypeSignatures`,
`ExternalTypes`). Pointers are indices into an append-only arena; a type denotes a
finite tree. Folding into another arena is mathematical substitution on trees, for whole
signatures exactly when receiver and owner type substitute alike. Substitution is pinned
down position by position: mapped parameters are replaced and nothing else changes.

**Query traces** (`TraceLog`, `TraceForest`, `TraceMeaning`, `TraceBalance`,
`TraceSnapshot`, `TraceAccounts`). The online coalescer is lossless, maximal and
canonical; the forest built from its log means what the raw log means; unordered work
commutes; nothing is lost, balanced or not; the stable snapshot ignores
allocation-dependent keys; and what each event does to the forest is stated field by field.

**Inspector** (`FrozenProducts`, `FrozenEquality`, `FrozenOrder`, `BagDifference`,
`PathSegments`, `SymbolPaths`, `WalkOrder`, `Retention`, `ProviderAccounts`,
`LiveProvider`). Frozen products are equal exactly when their page graphs are isomorphic,
and freezing renames handles in depth-first order and does nothing else. Trace
differences are exact bag subtraction. A path is listed exactly when it replays, once,
and in order. The bounded history keeps its dependent maps consistent over every sequence
of calls, and every call does exactly what it announces.

**Watches** (`Watches`). Reconfiguration is a transaction whichever watcher calls fail,
and every failed call is reported.

**Text** (`TypeSyntax`, `TokenTiling`, `TypeGrammar`, `TypePrinting`, `BookLinks`,
`SlashPaths`, `Decimals`). The tokenizer and the type parser decide a layout of the text
and a grammar that are defined without them, errors included. Printing and parsing type
expressions, and relative links between book pages, are inverse, with the exact
exceptions.

## Where the code does less than its documentation suggests

- Validation does not see dispatch frames, so an accepted model can still be reported at
  run time (`DispatchGap.AcceptedModelForbidsItsDispatch`). Searching the graph with the
  dispatch edges added would close the gap (`DispatchSearch.DispatchSearchIsExact`).
- A printed `self` path does not parse, because the parser wants a dot after `self`:
  `self.x` reads and its printed form `self::x` does not (`TypePrinting.SelfPathIsNotReread`,
  and `TypePrinting.RoundTripIff` for all expressions).
- Symbols 256 or more segments below the crate are listed but have no rebuilt path
  (`SymbolPaths.DeepSymbolHasNoReference`, and `SymbolPaths.ReferenceMatchesWalk` for all
  symbols).

## Conventions

Names joined by `::` are sequences of segments. Identifiers, sequence numbers and counts
are unbounded. Iteration over the source's ordered maps and sets is any order, so the
results hold for the sorted one. Text is a sequence of characters, names to encode are
sequences of bytes. Diagnostics keep their kind and the data they are about; their
wording is not modelled. Loops and updates in place are methods proved against the
functions of the same module, those of `LiveProvider` against `Retention`. `Wrappers`,
`Characters` and `QueryOutcomes` hold what several modules share.

## Model

| member | source | states |
|---|---|---|
| ClassModel.ComputeAncestors | crates/sage-meta/src/validate.rs:311-322 | the loop returns the bounded base chain, whatever the class graph; it terminates on cyclic inheritance |
| ClassModel.AncestorsFromChain | crates/sage-meta/src/validate.rs:311-322 | the chain lists each class once, in order, and is closed: the base of its last class is absent or already listed |
| ClassModel.AncestorsAreInherited | crates/sage-meta/src/validate.rs:311-322 | a class is listed as an ancestor exactly when some number of base steps leads to it, with or without cycles |
| ClassModel.AncestorsTransitive | crates/sage-meta/src/validate.rs:311-322 | ancestors of ancestors are ancestors |
| ClassModel.ChainOrder | crates/sage-meta/src/validate.rs:311-322 | a later class of a chain is an ancestor of every earlier one |
| ClassModel.ComputeSelected | crates/sage-meta/src/validate.rs:323-332 | method lookup is the first declaring class on the chain, or nothing: the nearest declaration along the base steps |
| ClassModel.ComputeImplementations | crates/sage-meta/src/validate.rs:585-590 | the search starts are exactly the methods selected in descendants of the prohibiting class: the nearest declaration seen from each of them |
| ClassModel.ComputeTargets | crates/sage-meta/src/validate.rs:334-365 | a call may run exactly the nearest declarations seen from the named class and from every class that reaches it by base steps, overrides included; otherwise which of the resolution errors applies, and when |
| ClassModel.DeclaredIsSelected | crates/sage-meta/src/validate.rs:323-332 | a class that declares a method selects its own declaration |
| ClassModel.ImplementationIffAncestor | crates/sage-meta/src/validate.rs:582-590 | a declared method is among the implementations of a base method exactly when the base owner is an ancestor of its class |
| ClassModel.ResolvedPathIs | crates/sage-meta/src/validate.rs:285-306 | a path resolves to its segments below the own crate or a declared dependency; `self` and undeclared dependencies are refused |
| ClassModel.SelectedIsNearest | crates/sage-meta/src/validate.rs:311-332 | lookup along the bounded chain finds a declaration exactly when it is the nearest one by base steps, on cyclic bases too |
| ClassModel.ImplementationsRunBelow | crates/sage-meta/src/validate.rs:582-590 | a search start is exactly the nearest declaration seen from some class that reaches the prohibiting class by base steps |
| ClassModel.TargetsDispatch | crates/sage-meta/src/validate.rs:334-365 | dispatch stated without chains and without the search: targets exactly when some class at or below the named one has them as nearest declaration, and each error exactly in its case |
| ClassModel.DispatchIsUnique | crates/sage-meta/src/validate.rs:334-365 | that account of a call path has one answer only |
| PathSearch.PathIsReached | crates/sage-meta/src/validate.rs:596-614 | along any call path each operation is reached by the search no later than its position |
| PathSearch.HeadIsShortest | crates/sage-meta/src/validate.rs:596-614 | no path into the forbidden set is shorter than the one at the head of the queue |
| PathSearch.SearchStep | crates/sage-meta/src/validate.rs:606-613 | one iteration keeps the whole search invariant and makes progress on repeated and new operations alike |
| PathSearch.SearchForbidden | crates/sage-meta/src/validate.rs:579-615 | the breadth-first search terminates on every graph, finds a forbidden path exactly when one exists, and returns a shortest one |
| StaticCheck.GraphPaths | crates/sage-meta/src/validate.rs:369-500 | paths of the collected graph are exactly the chains of declared calls |
| StaticCheck.InheritanceIsAcyclic | crates/sage-meta/src/validate.rs:379-384 | the per-class cycle report is enough: in a model without structural errors no class is its own proper ancestor |
| StaticCheck.CycleReturns | crates/sage-meta/src/validate.rs:379-384 | the bounded ancestor list of the base holds the class itself exactly when some number of base steps leads back to it |
| StaticCheck.CheckBase | crates/sage-meta/src/validate.rs:379-403 | exactly the errors of a class base: unresolved, missing, cyclic exactly when base steps lead back to the class, or of another context kind; none exactly when it is acceptable |
| StaticCheck.CheckOverride | crates/sage-meta/src/validate.rs:449-479 | an override error exactly when the override flag disagrees with whether a method is inherited, or the kinds differ |
| StaticCheck.CheckEnvelope | crates/sage-meta/src/validate.rs:491-551 | one pass over an envelope yields its call targets, its prohibitions and exactly the errors of the paths that do not resolve |
| StaticCheck.CheckMethod | crates/sage-meta/src/validate.rs:436-489 | the graph edges and prohibitions contributed by one method, and exactly its errors |
| StaticCheck.CheckComplete | crates/sage-meta/src/validate.rs:553-576 | a concrete class is complete exactly when every method of its ancestors selects an implementation; each missing one is reported |
| StaticCheck.CheckPath | crates/sage-meta/src/validate.rs:579-615 | one prohibition is reported exactly when a chain of declared calls breaks it, by a shortest such chain |
| StaticCheck.CheckClass | crates/sage-meta/src/validate.rs:371-577 | everything collected from one class, exactly its errors, and none exactly when the class is acceptable |
| StaticCheck.Check | crates/sage-meta/src/validate.rs:366-618 | no error exactly on accepted models; a structural error is listed exactly when that fault stands in some class; every reported forbidden path is a shortest real call path, and every violated prohibition is reported |
| StaticCheck.DiagnosisComplete | crates/sage-meta/src/validate.rs:366-618 | structural errors followed by path errors tell the whole truth: none exactly on accepted models, only shortest paths, and one for every violated prohibition |
| Contracts.ResolveContracts | crates/sage-meta/src/validate.rs:32-122 | resolution fails exactly on models that are not accepted, with errors that diagnose them as validation does, or yields one contract for every declared operation |
| Contracts.ResolveOperation | crates/sage-meta/src/validate.rs:44-119 | the permissions, inherited prohibitions, dispatch targets and unchecked effects of one operation |
| Contracts.ComputeUnchecked | crates/sage-meta/src/validate.rs:95-104 | which unchecked effects an envelope declares itself |
| Contracts.InheritedMembership | crates/sage-meta/src/validate.rs:57-107 | a rule is inherited exactly when some ancestor states it for the method |
| Contracts.UniqueMethod | crates/sage-meta/src/validate.rs:439-445 | in a model without structural errors a method name is unique in its class |
| Contracts.RulesMatchStaticProhibitions | crates/sage-meta/src/validate.rs:55-94 | an operation carries a prohibition at run time exactly when some declared prohibition has it among the implementations the static search starts from |
| Contracts.PermissionsAreCalls | crates/sage-meta/src/validate.rs:64-93 | run-time permissions are exactly the edges of the static call graph |
| Contracts.InheritedSay | crates/sage-meta/src/validate.rs:57-94 | the prohibitions gathered along the ancestor chain are exactly those stated for the method by the class or a class some base steps above it |
| Contracts.ContractSays | crates/sage-meta/src/validate.rs:44-119 | a resolved contract field by field: its permissions, its prohibitions with targets, receiver condition, file, span and stating operation, its dispatch targets, and whether it is abstract |
| ContractSession.Session.constructor | crates/sage-meta/src/contracts.rs:155-176 | a fresh session records exactly the configured roots that do not exist |
| ContractSession.Session.Enter | crates/sage-meta/src/contracts.rs:179-181 | a request entry: new id, trace, stack, unchecked effects and all findings of the entry |
| ContractSession.Session.EnterValidation | crates/sage-meta/src/contracts.rs:187-189 | a validation entry checks prohibitions but no call permission |
| ContractSession.Session.EnterWithKind | crates/sage-meta/src/contracts.rs:191-229 | the whole new session state after an entry |
| ContractSession.Session.CheckRequest | crates/sage-meta/src/contracts.rs:235-293 | the findings of the call-permission check, in order |
| ContractSession.Session.CollectRestrictions | crates/sage-meta/src/contracts.rs:299-315 | the prohibitions of all active frames that name the entered operation, outermost first |
| ContractSession.Session.CheckProhibitions | crates/sage-meta/src/contracts.rs:296-345 | the findings of the prohibition check, in order |
| ContractSession.Session.Exit | crates/sage-meta/src/contracts.rs:367-384 | a matching exit pops one frame; any other is recorded and changes no frame |
| ContractSession.Session.RecordGap | crates/sage-meta/src/contracts.rs:387-389 | a gap is added and nothing else changes |
| ContractSession.Session.Finish | crates/sage-meta/src/contracts.rs:400-417 | the report of the session, open frames reported as a gap; what it lists is `SessionReports.ReportAccounts` |
| SessionReference.RunIsSound | crates/sage-meta/src/contracts.rs:191-229 | in every reachable state replaying the trace rebuilds the active frames, which are exactly the entries still open |
| SessionReference.TraceRecordsCalls | crates/sage-meta/src/contracts.rs:191-384 | the trace records every entry and every matched exit in order, and ids count the entries |
| SessionReference.CallCleanIff | crates/sage-meta/src/contracts.rs:235-293 | the caller check finds nothing exactly when the contract permits the edge, on the same receiver where required |
| SessionReference.ProhibitionCleanIff | crates/sage-meta/src/contracts.rs:296-345 | the prohibition check finds nothing exactly when every enclosing pair respects the prohibitions |
| SessionReference.EntryCleanIff | crates/sage-meta/src/contracts.rs:191-345 | the stack-based checks of an entry find nothing exactly when the entry conforms to a reading of the trace that knows no stack |
| SessionReference.QuietIffConformsSoFar | crates/sage-meta/src/contracts.rs:153-417 | over every sequence of calls, no violation and no gap so far exactly when everything so far conforms |
| SessionReference.BalancedIffClosed | crates/sage-meta/src/contracts.rs:400-410 | the trace is balanced exactly when no frame is left open |
| SessionReference.ReportIffConforms | crates/sage-meta/src/contracts.rs:400-417 | `calls_conform` holds exactly when the roots exist, no gap was reported, every exit matched, the trace is balanced, every edge is permitted and every enclosing prohibition is respected |
| SessionReference.UncheckedAreEntered | crates/sage-meta/src/contracts.rs:205-209 | the unchecked effects of a session are exactly those declared by operations it entered |
| SessionReports.EntryFindings | crates/sage-meta/src/contracts.rs:191-345 | one entry records exactly the faults and gaps that a reading of the open frames finds: unknown operation, no frame and not a root, edge not permitted, different or unknown receivers, an enclosing prohibition broken |
| SessionReports.ReportAccounts | crates/sage-meta/src/contracts.rs:153-417 | for every sequence of calls: a violation or gap is in the report exactly when the reference condition fails at that call, with the frames open there as its path and the broken rule; the trace, the counts and the verdict (no violation and no gap) likewise |
| SessionReports.FindingsGrow | crates/sage-meta/src/contracts.rs:191-384 | later calls only add to what is listed, so findings stand in the order of the calls |
| SessionReports.RestrictionsInOrder | crates/sage-meta/src/contracts.rs:299-315 | the prohibitions met by an entry come from the outermost frame inwards, each frame in the order of its contract |
| SessionReports.EntryIsStaged | crates/sage-meta/src/contracts.rs:191-229 | an entry lists an unknown operation first, then the judgement of the request, then broken prohibitions |
| StaticSoundness.OnlyProhibitionsForbid | crates/sage-meta/src/contracts.rs:205-224 | outside the prohibition check no entry reports a forbidden transitive call |
| StaticSoundness.SafeRun | crates/sage-meta/src/contracts.rs:296-345 | safe prohibitions keep every admitted run free of forbidden transitive calls |
| StaticSoundness.BrokenRuleIsFound | crates/sage-meta/src/contracts.rs:296-345 | every broken rule is caught by some run of admitted requests |
| StaticSoundness.SafeIffNeverForbidden | crates/sage-meta/src/contracts.rs:235-345 | with or without dispatch frames: prohibitions are safe along admitted chains exactly when no admitted run is reported |
| StaticSoundness.SafeIffNoForbiddenPath | crates/sage-meta/src/validate.rs:579-615 | the static path search finds nothing exactly when the run-time prohibitions are safe along declared calls |
| StaticSoundness.StaticCheckIsExact | crates/sage-meta/src/validate.rs:579-615 | on a model without structural errors, the static search finds nothing exactly when no session run of declared requests can record a forbidden transitive call |
| DispatchGap.AcceptedModelForbidsItsDispatch | crates/sage-meta/src/contracts.rs:245-250 | an accepted model one of whose dispatch runs is reported: the static graph does not contain dispatch edges |
| DispatchSearch.DispatchGraphAdmits | crates/sage-meta/src/contracts.rs:245-250 | the static graph holds exactly the permitted calls, and with dispatch edges added exactly the admitted ones |
| DispatchSearch.SafeIffSearchesFindNothing | crates/sage-meta/src/validate.rs:579-615 | prohibitions are safe along admitted chains exactly when no search from an operation that carries one finds a path |
| DispatchSearch.DispatchSearchIsExact | crates/sage-meta/src/validate.rs:579-615 | searching the graph with dispatch edges finds nothing exactly when no run, dispatch frames included, is reported |
| Observer.SalsaObserver.constructor | crates/sage-meta/src/salsa_contracts.rs:93-113 | a fresh observer has no scope, event or definition and a fresh session |
| Observer.SalsaObserver.CheckDefinition | crates/sage-meta/src/salsa_contracts.rs:178-196 | the gaps for a changed source, an unresolved mapping and a missing cause, in order |
| Observer.SalsaObserver.CheckReturn | crates/sage-meta/src/salsa_contracts.rs:226-251 | the gaps for a disposition or cause that contradicts the open request |
| Observer.SalsaObserver.Follow | crates/sage-meta/src/salsa_contracts.rs:208-281 | the session calls and the new scope stack for each kind of lifecycle event |
| Observer.SalsaObserver.Event | crates/sage-meta/src/salsa_contracts.rs:118-282 | the whole new observer state after any event, including the early returns |
| Observer.SalsaObserver.Exit | crates/sage-meta/src/salsa_contracts.rs:284-306 | a scope closes only by its own key and kind; anything else is a gap and pops nothing |
| Observer.SalsaObserver.Finish | crates/sage-meta/src/salsa_contracts.rs:312-321 | the report after an unclosed-scope gap where one is due |
| QueryNesting.AdvanceActivities | crates/sage-meta/src/salsa_contracts.rs:208-281 | complete, truthful work leaves the scope stack as it was, up to the mark that a request executed |
| QueryNesting.UnfinishedWork | crates/sage-meta/src/salsa_contracts.rs:208-281 | every accepted event sequence is complete work inside the scopes still open |
| QueryNesting.NestedIffAccepted | crates/sage-meta/src/salsa_contracts.rs:208-306 | the scope stack runs through and ends empty exactly on properly nested sequences with truthful dispositions |
| ObserverSoundness.StacksMoveInLockstep | crates/sage-meta/src/salsa_contracts.rs:208-306 | after any events, well formed or not, the ids in the scopes are the ids of the active frames and no exit was ever unbalanced |
| ObserverSoundness.EventQuiet | crates/sage-meta/src/salsa_contracts.rs:118-282 | one event leaves no gap exactly when it agrees with everything seen before and keeps the nesting |
| ObserverSoundness.QuietIffOrderlySoFar | crates/sage-meta/src/salsa_contracts.rs:118-282 | no gap so far exactly when the events so far have their provenance, come from one thread and nest |
| ObserverSoundness.ReportIffOrderly | crates/sage-meta/src/salsa_contracts.rs:312-321 | the report conforms exactly when the roots exist, the whole event log is orderly and every entry respects the contracts |
| ObserverSoundness.EveryRequestIsChecked | crates/sage-meta/src/salsa_contracts.rs:209-218 | every mapped direct request is checked once, cache hits included |
| ObserverAccounts.HeardAccounts | crates/sage-meta/src/salsa_contracts.rs:118-282 | an event that is heard: which operation it enters or leaves and as what kind, the scope it opens or closes, what is remembered of its definition, and its complaints in order |
| ObserverAccounts.EventAccounts | crates/sage-meta/src/salsa_contracts.rs:118-282 | the same for any event in any reachable state, ignored and foreign ones included |
| ObserverAccounts.RunAccounts | crates/sage-meta/src/salsa_contracts.rs:118-321 | over whole runs: after any events the next one does what its account says, and the final report lists exactly what the session calls made of it, with a gap for scopes left open |
| TypeArena.ReadTyStable | crates/sage-ir/src/ty_fold.rs:13-36 | growing the arena changes the tree of no pointer |
| TypeArena.Stash.Alloc | crates/sage-ir/src/ty_fold.rs:33-36 | allocation keeps the arena well founded and the new pointer reads back the allocated type |
| TypeArena.Stash.AllocSlice | crates/sage-ir/src/ty_fold.rs:106-106 | the new slice reads back the allocated pointers |
| TypeFold.Substitute.FoldTy | crates/sage-ir/src/ty_fold.rs:254-262 | the folded type reads back as the substitution of the source tree; older pointers keep their trees |
| TypeFold.Substitute.DefaultFoldTy | crates/sage-ir/src/ty_fold.rs:26-69 | folding a type substitutes its children, and the new type keeps the constructor, symbol, mutability, lifetime, array length and arity of the old one |
| TypeFold.Substitute.FoldFnPtr | crates/sage-ir/src/ty_fold.rs:52-57 | the same for function pointers |
| TypeFold.Substitute.FoldAliasTy | crates/sage-ir/src/ty_fold.rs:72-92 | the same for named, associated and opaque aliases |
| TypeFold.Substitute.FoldTraitRef | crates/sage-ir/src/ty_fold.rs:175-183 | the same for trait references |
| TypeFold.Substitute.FoldPtrSlice | crates/sage-ir/src/ty_fold.rs:94-107 | the same for slices, element by element |
| TypePositions.SubstIff | crates/sage-ir/src/ty_fold.rs:26-111 | substitution is exactly this, at every position: `env[p]` where a mapped parameter stands, and everywhere else the same constructor, symbol, mutability, lifetime, array length and arity |
| TypePositions.SubstAllIff | crates/sage-ir/src/ty_fold.rs:94-111 | the same for lists of types, element by element |
| TypePositions.UnmappedIsUnchanged | crates/sage-ir/src/ty_fold.rs:26-92 | a type none of whose parameters is mapped is left alone |
| TypePositions.ParamsAreAtPositions | crates/sage-ir/src/ty_fold.rs:254-262 | a parameter is listed exactly when it stands at some position |
| TypeSignatures.FoldWherePredicate | crates/sage-ir/src/ty_fold.rs:185-194 | folding a predicate is substitution on its tree |
| TypeSignatures.FoldParameterEnv | crates/sage-ir/src/ty_fold.rs:196-209 | folding a parameter environment is substitution on all its predicates |
| TypeSignatures.FoldFnSig | crates/sage-ir/src/ty_fold.rs:113-136 | folding a signature is substitution on its denotation, with the receiver re-derived from the owner type |
| TypeSignatures.ReceiverAgreement | crates/sage-ir/src/ty_fold.rs:118-121 | this is plain substitution exactly when receiver and owner type substitute alike |
| TypeSignatures.BuildTypeSubstMap | crates/sage-ir/src/ty_fold.rs:305-321 | the map zips type parameters with arguments, skipping lifetime and constant generics |
| TypeSignatures.ZippedIs | crates/sage-ir/src/ty_fold.rs:313-319 | which argument each parameter gets; the last one where a parameter repeats |
| TypeSignatures.TypeParamsPickOut | crates/sage-ir/src/ty_fold.rs:305-312 | the type parameters are picked out in order, the other kinds are skipped |
| TypeSignatures.ZippedAt | crates/sage-ir/src/ty_fold.rs:313-319 | position by position: a parameter stands for the argument at its last place in the list |
| TypeSignatures.InstantiateFnSig | crates/sage-ir/src/ty_fold.rs:269-279 | instantiation is substitution by the zipped map |
| TypeSignatures.ParamsAfterSubstSig | crates/sage-ir/src/ty_fold.rs:269-279 | exactly which type parameters a substituted signature mentions |
| TypePositions.SubstPredicateIff | crates/sage-ir/src/ty_fold.rs:185-194 | a where clause keeps its trait; self type and arguments are substituted position by position |
| TypePositions.SubstSigIff | crates/sage-ir/src/ty_fold.rs:113-136 | a signature keeps everything that is not a type, and each of its types is substituted position by position |
| TypePositions.UnmappedSigIsUnchanged | crates/sage-ir/src/ty_fold.rs:113-136 | a signature none of whose parameters is mapped is left alone |
| TypeSignatures.InstantiationIsClosed | crates/sage-ir/src/ty_fold.rs:269-279 | one closed argument per type parameter leaves none of the binder's type parameters anywhere in the signature |
| TypeSignatures.SubstComposes | crates/sage-ir/src/ty_fold.rs:254-262 | instantiating twice is instantiating once with the composed map |
| ExternalTypes.NextArgument | crates/sage-ir/src/external_syms.rs:333-348 | the next explicit argument, or the slot's default with all parameters to its left substituted |
| ExternalTypes.ApplySlots | crates/sage-ir/src/external_syms.rs:326-351 | all arguments in order, or the error of the first slot that has none |
| ExternalTypes.ArgumentsAreUnique | crates/sage-ir/src/external_syms.rs:329-351 | the declarative account of the arguments determines every one of them |
| ExternalTypes.SlotsStandInOrder | crates/sage-ir/src/external_syms.rs:329-349 | one slot per declared type parameter, in order, each with its own default |
| ExternalTypes.ApplyExternalAdtSignature | crates/sage-ir/src/external_syms.rs:299-363 | one argument per type parameter and instantiated predicates, failing exactly on too many arguments or a needed default that is absent or unsupported |
| TraceLog.Recorder.WillRequest | crates/sage-ir/src/db.rs:183-190 | an entered request is appended |
| TraceLog.Recorder.DidRequest | crates/sage-ir/src/db.rs:191-246 | a finished request extends a leaf, turns a pair into a leaf, or is appended |
| TraceLog.Recorder.LogOther | crates/sage-ir/src/db.rs:380-404 | phases, spans and metadata are appended |
| TraceLog.Recorder.Take | crates/sage-ir/src/db.rs:355-357 | taking the log empties it |
| TraceLog.RecordingIsLossless | crates/sage-ir/src/db.rs:183-246 | expanding the kept log gives back every raw event in order |
| TraceLog.RecordingIsCompact | crates/sage-ir/src/db.rs:183-246 | the kept log never holds the same unit twice in a row |
| TraceLog.CompactIsRecorded | crates/sage-ir/src/db.rs:183-246 | every compact log is the coalescing of its own expansion |
| TraceLog.CompactFormIsUnique | crates/sage-ir/src/db.rs:183-246 | the kept log is the only compact log with its meaning |
| TraceForest.SortIsCanonical | crates/sage-host/src/trace.rs:181-186 | sorting children forgets their original order completely |
| TraceForest.AttachTraceNode | crates/sage-host/src/trace.rs:153-159 | a finished node goes below the innermost open one, or to the roots |
| TraceForest.CloseNode | crates/sage-host/src/trace.rs:26-45 | an exit closes the innermost node, reporting a mismatch first |
| TraceForest.HandleEvent | crates/sage-host/src/trace.rs:13-144 | the new roots and stack after any event |
| TraceForest.BuildDynamicTrace | crates/sage-host/src/trace.rs:6-151 | the forest of any log, open nodes closed from the inside |
| TraceMeaning.SpreadNormalized | crates/sage-host/src/trace.rs:181-186 | sorting children does not change what a node counts |
| TraceMeaning.RunExpanded | crates/sage-host/src/trace.rs:84-126 | running a coalesced log and running what it stands for stay alike, event by event |
| TraceMeaning.ForestOfExpansion | crates/sage-host/src/trace.rs:6-151 | for every log, the forest of the log and of its expansion agree with counts written out and unordered children as collections |
| TraceMeaning.RecordedForestIsRawForest | crates/sage-host/src/trace.rs:6-151 | recording never changes what the forest says |
| TraceBalance.BalancedLogsBuildTheirForest | crates/sage-host/src/trace.rs:6-151 | a balanced log builds exactly the forest it describes, without error nodes |
| TraceBalance.UnorderedGroupsCommute | crates/sage-host/src/trace.rs:181-186 | permuting complete child groups of an unordered span leaves the whole forest unchanged |
| TraceBalance.TraceConservesWork | crates/sage-host/src/trace.rs:6-151 | for any log there is one node per entry, leaf and metadata event and one error node per unmatched or mismatched exit |
| TraceAccounts.PhaseNamesInvert | crates/sage-host/src/trace.rs:170-179 | a phase is recognised exactly by its own name |
| TraceAccounts.QueryOperationIs | crates/sage-host/src/trace.rs:193-198 | the operation of a query is its key up to the arguments, trimmed |
| TraceAccounts.SortAscends | crates/sage-host/src/trace.rs:181-191 | sorted children stand in order |
| TraceAccounts.StepAccounts | crates/sage-host/src/trace.rs:13-144 | what any event does to roots and stack, field by field of the nodes it makes: phase, source, operation, key, outcome, order and count |
| TraceAccounts.CloseAllNests | crates/sage-host/src/trace.rs:146-151 | nodes still open at the end become one last tree, nested as they were open |
| TraceSnapshot.SnapshotTrace | crates/sage-host/src/trace.rs:218-233 | the built forest with unmapped keys replaced and unordered children sorted again, at every depth |
| TraceSnapshot.ErasedNormalized | crates/sage-host/src/trace.rs:219-227 | sorting before erasing keys makes no difference |
| TraceSnapshot.SnapshotIgnoresKeys | crates/sage-host/src/trace.rs:215-233 | the snapshot is the same for any log whose keys differ in their arguments only, balanced or not |
| TraceSnapshot.RecordedSnapshotIsStable | crates/sage-host/src/trace.rs:215-233 | the same from raw events through the recorder |
| TraceAccounts.SnapshotIsStable | crates/sage-host/src/trace.rs:218-233 | a snapshot has the trees of the trace one by one, each unmapped key replaced by its operation, everything else kept, and unordered children in order |
| FrozenProducts.NormalizeValue | src/inspector.rs:653-695 | the depth-first renumbering of one value, with the page store it leaves |
| FrozenProducts.NormalizeRender | src/inspector.rs:630-651 | the same for render nodes |
| FrozenProducts.FreezeProduct | src/inspector.rs:611-628 | freezing terminates on every page graph, cyclic ones included |
| FrozenProducts.CanonicalInjective | src/inspector.rs:688-688 | different numbers give different canonical handles |
| FrozenEquality.IsomorphicFreezeAlike | src/inspector.rs:611-695 | any handle renaming that keeps the page graph gives the same frozen product |
| FrozenEquality.VisitWalks | src/inspector.rs:653-695 | a walk numbers its handles without gaps and stores every reached page with renumbered handles |
| FrozenEquality.EqualFreezeIsomorphic | src/inspector.rs:611-695 | equal frozen products yield a handle renaming between their reachable pages |
| FrozenEquality.FrozenEqualIffIsomorphic | src/inspector.rs:611-695 | two products freeze alike exactly when a renaming turns one reachable page graph into the other, a missing page counting as empty |
| FrozenOrder.FreezeRenames | src/inspector.rs:611-695 | a frozen product is the page with its handles renamed by their place in a depth-first search, followed by the page of each handle in that order, renamed likewise |
| FrozenOrder.FreezeLosesOnlyNames | src/inspector.rs:611-695 | some renaming turns a frozen product and its numbered pages back into the page and the pages they came from: nothing but names is lost |
| BagDifference.Cancel | src/inspector.rs:589-602 | entries of one identity are used up in place, every other identity is untouched |
| BagDifference.Difference | src/inspector.rs:585-609 | the surviving entries in order, each with what earlier entries left of it |
| BagDifference.SurvivorsTotal | src/inspector.rs:585-609 | for every identity the result sums to left total minus right total, or nothing |
| BagDifference.RightIsABag | src/inspector.rs:585-609 | order, splitting and duplication on the right do not matter |
| BagDifference.OneDirectionOnly | src/inspector.rs:432-435 | no identity survives in both directions, and both directions balance |
| BagDifference.EmptyIffSameBag | src/inspector.rs:432-435 | nothing survives either way exactly when both sides are the same bag |
| BagDifference.SurvivesInOrder | src/inspector.rs:585-609 | entries survive in their order, each with no more than it had, and what survives of a beginning does not depend on what follows |
| PathSegments.EncodingDecodes | src/inspector.rs:2078-2089 | percent-encoding can be undone |
| PathSegments.EncodingInjective | src/inspector.rs:2078-2089 | different names encode differently |
| PathSegments.EncodingIsSafe | src/inspector.rs:2078-2089 | only unreserved characters (section 2.3 of RFC 3986) and percent signs come out, never a slash |
| PathSegments.UnreservedAre | src/inspector.rs:2082-2082 | the characters that stay as they are, one by one (section 2.3 of RFC 3986) |
| PathSegments.CanonicalChildren | src/inspector.rs:995-1017 | the segments of the local children, numbered per base |
| PathSegments.CanonicalNumbers | src/inspector.rs:994-1017 | children with one base are numbered upwards |
| PathSegments.CanonicalLists | src/inspector.rs:994-1017 | every local symbol has one child, in order; its segment is its base, with the number behind it exactly when that is not zero |
| PathSegments.DistinctIffUnambiguous | src/inspector.rs:1001-1009 | sibling segments are pairwise distinct exactly when no symbol is named like the numbered segment of a repeated base |
| PathSegments.TakenNameCollides | src/inspector.rs:1001-1009 | without the kind prefix of real bases two segments can coincide: why the numbering needs the shape of the bases |
| PathSegments.RealSegmentsDistinct | src/inspector.rs:1919-1952 | with a kind prefix and an encoded name without a hyphen, siblings never share a segment |
| SymbolPaths.WalkSymbols | src/inspector.rs:1852-1889 | the eager listing, parents before children |
| SymbolPaths.ResolveLocalSymbol | src/inspector.rs:915-929 | replay of a path along the owners it names |
| SymbolPaths.RealNamesAreGood | src/inspector.rs:1919-1952 | trees with real names have distinct slash-free segments everywhere |
| SymbolPaths.WalkIffResolves | src/inspector.rs:915-929 | the listing holds a symbol under a path exactly when the path replays to that symbol |
| WalkOrder.WalkIsOrdered | src/inspector.rs:1852-1889 | of two listed entries the first leads to an owner of the second or parts from it at an earlier sibling |
| WalkOrder.PathsAreDistinct | src/inspector.rs:1852-1889 | no path is listed twice |
| SymbolPaths.FindLocalReference | src/inspector.rs:1019-1059 | the path rebuilt from the owner chain, within the owner limit |
| SymbolPaths.ReferenceMatchesWalk | src/inspector.rs:1019-1059 | rebuilding gives the listed path, and nothing exactly for symbols deeper than the owner limit |
| SymbolPaths.DeepSymbolHasNoReference | src/inspector.rs:1019-1040 | the innermost of 256 nested modules is listed and replays, and has no rebuilt path |
| LiveProvider.Provider.constructor | src/inspector.rs:81-102 | a provider starts with one initial revision, the given sources and nothing else |
| LiveProvider.Provider.RecordRun | src/inspector.rs:133-177 | a new handle, its run, and its listing under the newest revision |
| LiveProvider.Provider.PushRevision | src/inspector.rs:184-198 | the newest revision is kept, and past the limit everything of the oldest is dropped |
| LiveProvider.Provider.Product | src/inspector.rs:287-339 | a product request stores the product with its run and continuation pages |
| LiveProvider.Provider.ApplyUpdates | src/inspector.rs:439-508 | afterwards every path has the text of its last update and every other path its old text; the deltas replayed over the old sources give the new ones, each from the text it found to a different one; unknown files and unchanged texts are refused and change nothing |
| LiveProvider.Provider.ReloadWorkspace | src/inspector.rs:510-544 | a new database generation drops all continuation pages |
| ProviderAccounts.RecordAccounts | src/inspector.rs:133-177 | what recording a run changes and what it leaves alone |
| ProviderAccounts.InspectAccounts | src/inspector.rs:287-339 | what a product request stores, under which names, and what it answers |
| ProviderAccounts.UpdatedAccounts | src/inspector.rs:439-508 | the account of an edit: texts, deltas, batch name, new revision and history, or the error and no change |
| ProviderAccounts.DeltasComeFrom | src/inspector.rs:462-482 | the deltas are those of the updates that change the text they find, in order |
| ProviderAccounts.NothingChangesIff | src/inspector.rs:462-488 | an edit announces nothing exactly when every update repeats the text there is |
| ProviderAccounts.ResubmittedChangesNothingIff | src/inspector.rs:462-488 | submitting an edit again answers `no-input-changes` and changes nothing exactly when no path is given two texts |
| ProviderAccounts.ReloadAccounts | src/inspector.rs:510-544 | what a reload replaces, drops and records, or the error and no change |
| Retention.IdInjective | src/inspector.rs:121-127 | revision ids determine generation and database revision |
| Retention.BelongsToOne | src/inspector.rs:194-197 | a continuation handle starts with the id of one revision only |
| Retention.PushDropsOnlyExpired | src/inspector.rs:184-198 | products, pages and runs survive a push exactly when their revision does |
| Retention.StepConsistent | src/inspector.rs:133-544 | every provider call keeps the history bounded and ordered, the run table equal to the listed runs, and products and pages with retained revisions |
| Retention.After | src/inspector.rs:133-544 | so does every sequence of calls |
| Retention.ComparedRunsAreKept | src/inspector.rs:389-437 | whatever was called, a stored product still has its run and its revision |
| Retention.HandlesNeverReused | src/inspector.rs:142-143 | a run handle in use is never handed out again |
| Watches.Watcher.Watch | src/main.rs:618-633 | a watch call fails without effect or sets the mode |
| Watches.Watcher.Unwatch | src/main.rs:635-642 | an unwatch call fails without effect or removes the path |
| Watches.Watches.InstallAll | src/main.rs:402-415 | new paths are watched one by one until a call fails |
| Watches.Watches.ReplaceAll | src/main.rs:420-454 | modes are replaced one by one; a failure half way restores the old mode or reports it |
| Watches.Watches.CleanUp | src/main.rs:459-475 | obsolete watches are removed; the failed calls are reported in order with their errors, and those watches kept |
| Watches.Watches.Rollback | src/main.rs:487-525 | everything done is undone, replacements before installations and each newest first, and every call that failed is reported with its error |
| Watches.Watches.Reconfigure | src/main.rs:394-476 | under any failures: the shadow map mirrors the watcher, success and failure leave exactly the promised watches, every failed call is reported in order with its own error, the first one as the error, only changing paths are touched, and an obsolete watch is given up only while all desired ones are active |
| Watches.RestoredIff | src/main.rs:487-525 | a failed reconfiguration restores the old watches exactly when no path is reported as unrestored or still installed |
| Watches.AbortedAfter | src/main.rs:434-451 | undoing on top of a half-done replacement leaves what a failure promises |
| Watches.FlawlessRunIsExact | src/main.rs:394-476 | a run without failing calls ends in exactly the desired watches, whatever was left before |
| Watches.UnchangedNeedsNoCalls | src/main.rs:402-475 | reconfiguring to the active watches makes no call |
| TypeSyntax.Tokenize | crates/sage-meta/src/parser.rs:17-71 | the tokens of the text, or its first lexical error and where it is; what they are is `TokenTiling.LexIff` |
| TypeSyntax.FindQuotes | crates/sage-meta/src/parser.rs:32-44 | the first closing delimiter, or none exactly where there is none |
| TokenTiling.LexIff | crates/sage-meta/src/parser.rs:17-71 | the answer, stated without the tokenizer: the text is laid out in white space, `//` comments up to the next line feed, and tokens that are slices of it, words and comments as long as they can be, prose up to the first closing delimiter; or it is so laid out up to the error and no piece starts there |
| TokenTiling.TilesAreUnique | crates/sage-meta/src/parser.rs:17-71 | there is only one such layout |
| TokenTiling.LinesJoin | crates/sage-meta/src/parser.rs:24-31 | a line that reads by itself reads the same in front of anything |
| TokenTiling.TrailingBlankVanishes | crates/sage-meta/src/parser.rs:24-31 | white space and a comment before a line feed can be deleted: the tokens stay, errors further on only move |
| TypeSyntax.Parser.TakePath | crates/sage-meta/src/parser.rs:161-187 | a path in type position, with the form of `self` paths |
| TypeSyntax.Parser.TakeType | crates/sage-meta/src/parser.rs:199-220 | a type expression, or the first error |
| TypeSyntax.Parser.TakeList | crates/sage-meta/src/parser.rs:222-233 | a comma-separated list with an optional trailing comma |
| TypeGrammar.PathIff | crates/sage-meta/src/parser.rs:161-187 | a path is read exactly where its spelling stands and cannot go on; outside types only at `crate`, `self` or a package |
| TypeGrammar.TypeIff | crates/sage-meta/src/parser.rs:199-233 | a type is read exactly where tokens spell it by the grammar, trailing commas and empty argument lists included, and nothing after them belongs to it |
| TypeGrammar.ReadIff | crates/sage-meta/src/parser.rs:199-233 | a whole text reads as a type exactly when its tokens spell that type |
| TypeGrammar.SpelledOnce | crates/sage-meta/src/parser.rs:199-233 | no tokens spell two types |
| TypeGrammar.ErrorIsFirst | crates/sage-meta/src/parser.rs:161-233 | an error stands at the first token with which no type begins, and names a token with which one could go on |
| TypePrinting.PrintedTokens | crates/sage-meta/web/browser.js:85-89 | the tokenizer recovers the tokens a printed expression is made of |
| TypePrinting.TypeParses | crates/sage-meta/src/parser.rs:199-233 | printed expressions parse back in any context, and fail exactly when they hold a `self` path |
| TypePrinting.TypeShaped | crates/sage-meta/src/parser.rs:161-233 | whatever the parser accepts is made of identifiers |
| TypePrinting.RoundTripIff | crates/sage-meta/web/browser.js:85-89 | reading what was printed gives the same expression exactly for expressions of identifiers without a `self` path |
| TypePrinting.ReprintIsStable | crates/sage-meta/web/browser.js:85-89 | reprinting an expression read from any text reads the same again, unless it holds a `self` path |
| TypePrinting.SelfPathIsNotReread | crates/sage-meta/src/parser.rs:171-174 | `self.x` reads as a type whose printed form does not read |
| BookLinks.ResolveSourceLink | crates/sage-meta/src/spec.rs:1153-1166 | the page a link leads to from a file |
| BookLinks.WrittenLinkLeads | crates/sage-meta/src/spec.rs:1091-1103 | a written link walks back to what both pages share and then along the target |
| BookLinks.WrittenLinkIs | crates/sage-meta/src/spec.rs:1091-1103 | a written link climbs out of exactly the directories the pages do not share, the longest common beginning, and then follows the target |
| BookLinks.DotsVanish | crates/sage-meta/src/spec.rs:1153-1166 | empty and `.` pieces do nothing, wherever they stand |
| BookLinks.UpTakesBack | crates/sage-meta/src/spec.rs:1153-1166 | `..` takes back the piece before it, and nothing at the root |
| BookLinks.LinkLeadsBackIff | crates/sage-meta/src/spec.rs:1091-1103 | a written link leads back to its page exactly when the target adds no empty, `.` or `..` piece to the shared directories, or is empty |

## Left out

- StaticCheck.Check: fields, types, `reads` and `creates` effects and override result types are not checked, because these checks add errors and neither edges nor prohibitions; the model is given, not built from parsed documents.
- Contracts.ResolveContracts: the errors are those of the modelled checks.
- StaticCheck.CheckOverride: result types are not compared, because types of the specification language are not part of the model.
- StaticCheck.CheckEnvelope: the paths of `reads` and `creates` effects are not resolved, because fields and types are not part of the model.
- StaticCheck.CheckMethod: result types and names shared by a field and a method are not checked, for the same reason.
- StaticCheck.CheckClass: the rules about fields and their types are not checked, for the same reason.
- StaticSoundness.StaticCheckIsExact: validation frames and frames admitted only by dispatch are excluded, because the static graph has no edges for them; dispatch is covered by `SafeIffNeverForbidden` and `DispatchSearchIsExact`.
- Observer.SalsaObserver.constructor: comparing compiled source text with the index, and the lookup error of that comparison, is not modelled; the verified files are a given set.
- Observer.SalsaObserver.Event: the source lookup is a given function, file names are compared as given instead of through the index's key, and a mapped site is its operation and file.
- TypeFold.Substitute.DefaultFoldTy: lifetimes and constants inside types are copied unchanged, as in the source; structural sharing in the arena is not modelled, because trees do not show it.
- Struct and enum signatures in type folding: they use the same folding of slices and predicates.
- Lowering of raw external metadata into types: only its application to arguments is modelled.
- TraceForest.BuildDynamicTrace: the serialized form used as sort key is not modelled; an arbitrary total order stands for it, and insertion sort for the library's stable sort.
- `TraceForest.HandleEvent`: observation counts are unbounded, the source's are 64 bits wide.
- Values for headings, text, code, notices and navigation in products: they hold no continuation and are one opaque constructor.
- How bases of symbol segments are computed from the compiler database, and symbol hashes: bases are given, and hashes enter only as names without a hyphen.
- `SymbolPaths.FindLocalReference`: ownership is a finite tree of values with an owner function, not interned handles.
- LiveProvider.Provider.Product: run contents, directory caching and text differences are not modelled, because they do not affect what is retained.
- LiveProvider.Provider.RecordRun: the trace of the run is not modelled, because it does not affect what is retained.
- LiveProvider.Provider.ApplyUpdates: paths are taken as normalized, and the host's own failure to write a file it has just found is not modelled.
- `Watches.Listing`: the order of paths is arbitrary instead of sorted.
- TypeSyntax.Tokenize: tokens and type expressions carry no source spans; errors carry the position of the character or token.
- The rest of the `.sage` grammar, prose blocks and the byte-offset map of `dedent`: only type expressions are printed and read back.
- The browser's own dispatch resolution, HTTP, watching threads, rendering, Cargo and logging.
