/** Reconfiguring file watches as a transaction, whichever watcher calls fail. */
module Watches {
  import opened Wrappers

  type PathName = string

  datatype WatchMode = Recursive | NonRecursive

  type WatchMap = map<PathName, WatchMode>

  /** One call made to the watcher: `mode` is `None` for an unwatch, `before` is the
      watcher's map when the call was made. */
  datatype Call = Call(path: PathName, mode: Option<WatchMode>, error: Option<string>, before: WatchMap)

  datatype RollbackStep = Remove | Restore | Uninstall

  datatype RollbackFailure = RollbackFailure(step: RollbackStep, path: PathName, error: string)

  datatype WatchError = WatchError(error: string, rollback: seq<RollbackFailure>)

  datatype CleanupFailure = CleanupFailure(path: PathName, error: string)

  /** What went wrong in one call; `restoring` tells a watch from an unwatch. */
  datatype Fault = Fault(path: PathName, restoring: bool, error: string)

  datatype Replacement = Replacement(path: PathName, oldMode: WatchMode, newMode: WatchMode)

  function Lookup(watches: WatchMap, path: PathName): Option<WatchMode> {
    if path in watches then Some(watches[path]) else None
  }

  // ---------------------------------------------------------------- the watcher

  /** The operating system's watcher. Any call may fail, and a failed call changes nothing. */
  class Watcher {
    var watched: WatchMap
    ghost var log: seq<Call>

    constructor ()
      ensures watched == map[] && log == []
    {
      watched, log := map[], [];
    }

    method Watch(path: PathName, mode: WatchMode) returns (error: Option<string>)
      modifies this
      ensures log == old(log) + [Call(path, Some(mode), error, old(watched))]
      ensures watched == if error.None? then old(watched)[path := mode] else old(watched)
    {
      error := *;
      log := log + [Call(path, Some(mode), error, watched)];
      if error.None? {
        watched := watched[path := mode];
      }
    }

    method Unwatch(path: PathName) returns (error: Option<string>)
      modifies this
      ensures log == old(log) + [Call(path, None, error, old(watched))]
      ensures watched == if error.None? then old(watched) - {path} else old(watched)
    {
      error := *;
      log := log + [Call(path, None, error, watched)];
      if error.None? {
        watched := watched - {path};
      }
    }
  }

  // ---------------------------------------------------------------- what a reconfiguration promises

  ghost predicate Reports(failures: seq<RollbackFailure>, step: RollbackStep, path: PathName) {
    exists i :: 0 <= i < |failures| && failures[i].step == step && failures[i].path == path
  }

  ghost predicate LeftBehind(cleanup: seq<CleanupFailure>, path: PathName) {
    exists i :: 0 <= i < |cleanup| && cleanup[i].path == path
  }

  ghost predicate Covers(watches: WatchMap, desired: WatchMap) {
    forall path :: path in desired ==> Lookup(watches, path) == Some(desired[path])
  }

  /** Success: every desired path has its desired mode, and the only other watches are the
      old ones whose removal is reported as failed. */
  ghost predicate Committed(initial: WatchMap, desired: WatchMap, active: WatchMap, cleanup: seq<CleanupFailure>) {
    && (forall path :: Lookup(active, path) ==
          if path in desired then Some(desired[path])
          else if LeftBehind(cleanup, path) then Lookup(initial, path)
          else None)
    && (forall i :: 0 <= i < |cleanup| ==> cleanup[i].path in initial && cleanup[i].path !in desired)
    && (forall i, j :: 0 <= i < j < |cleanup| ==> cleanup[i].path != cleanup[j].path)
  }

  /** Failure: every path is as it was, except where the rollback itself reports a failure. */
  ghost predicate Aborted(initial: WatchMap, desired: WatchMap, active: WatchMap, failures: seq<RollbackFailure>) {
    && (forall path :: Lookup(active, path) ==
          if Reports(failures, Uninstall, path) then Lookup(desired, path)
          else if Reports(failures, Restore, path) then
            if Reports(failures, Remove, path) then Lookup(desired, path) else None
          else Lookup(initial, path))
    && (forall i :: 0 <= i < |failures| ==>
          && failures[i].path in desired
          && (failures[i].step.Uninstall? ==> failures[i].path !in initial)
          && (!failures[i].step.Uninstall? ==>
                failures[i].path in initial && initial[failures[i].path] != desired[failures[i].path]))
  }

  /** Only paths that have to change are touched, and an obsolete watch is given up only
      while every desired path is watched. */
  ghost predicate Careful(initial: WatchMap, desired: WatchMap, calls: seq<Call>) {
    forall i :: 0 <= i < |calls| ==>
      && Lookup(initial, calls[i].path) != Lookup(desired, calls[i].path)
      && (calls[i].path !in desired ==> calls[i].mode.None? && Covers(calls[i].before, desired))
  }

  /** A watcher call on a desired path failed. */
  ghost predicate Hindered(desired: WatchMap, calls: seq<Call>) {
    exists i :: 0 <= i < |calls| && calls[i].path in desired && calls[i].error.Some?
  }

  /** The first call that failed, failed with `error`. */
  ghost predicate FailsFirst(calls: seq<Call>, error: string) {
    exists i :: 0 <= i < |calls| && calls[i].error == Some(error) && Flawless(calls[..i])
  }

  ghost predicate Flawless(calls: seq<Call>) {
    forall i :: 0 <= i < |calls| ==> calls[i].error.None?
  }

  function FaultOf(call: Call): seq<Fault> {
    if call.error.Some? then [Fault(call.path, call.mode.Some?, call.error.value)] else []
  }

  /** The failures among the calls, in order. */
  ghost function Faults(calls: seq<Call>): seq<Fault> {
    if calls == [] then [] else Faults(calls[..|calls| - 1]) + FaultOf(calls[|calls| - 1])
  }

  ghost function RollbackFaults(failures: seq<RollbackFailure>): seq<Fault> {
    seq(|failures|, i requires 0 <= i < |failures| =>
      Fault(failures[i].path, failures[i].step.Restore?, failures[i].error))
  }

  ghost function CleanupFaults(cleanup: seq<CleanupFailure>): seq<Fault> {
    seq(|cleanup|, i requires 0 <= i < |cleanup| => Fault(cleanup[i].path, false, cleanup[i].error))
  }

  /** The error that came first, and everything that failed after it. */
  ghost predicate Blames(calls: seq<Call>, error: string, failures: seq<RollbackFailure>) {
    var faults := Faults(calls);
    faults != [] && faults[0].error == error && faults[1..] == RollbackFaults(failures)
  }

  /** Every failed call is reported, in order and with its own error. */
  ghost predicate Reported(calls: seq<Call>, result: Result<seq<CleanupFailure>, WatchError>) {
    match result
    case Ok(cleanup) => Faults(calls) == CleanupFaults(cleanup)
    case Err(failure) => Blames(calls, failure.error, failure.rollback)
  }

  ghost predicate Transaction(
    initial: WatchMap, desired: WatchMap, calls: seq<Call>, active: WatchMap,
    result: Result<seq<CleanupFailure>, WatchError>)
  {
    && Careful(initial, desired, calls)
    && Reported(calls, result)
    && (result.Err? <==> Hindered(desired, calls))
    && match result
       case Ok(cleanup) => Committed(initial, desired, active, cleanup) && (Flawless(calls) <==> cleanup == [])
       case Err(failure) =>
         && Aborted(initial, desired, active, failure.rollback) && FailsFirst(calls, failure.error)
         && forall i :: 0 <= i < |calls| ==> calls[i].path in desired
  }

  /** A failed reconfiguration restores the old watches exactly when no path is reported
      as unrestored or still installed. */
  lemma RestoredIff(initial: WatchMap, desired: WatchMap, active: WatchMap, failures: seq<RollbackFailure>)
    requires Aborted(initial, desired, active, failures)
    ensures active == initial <==> forall i :: 0 <= i < |failures| ==> failures[i].step.Remove?
  {
    if active == initial {
      forall i | 0 <= i < |failures|
        ensures failures[i].step.Remove?
      {
        var path := failures[i].path;
        assert Reports(failures, failures[i].step, path);
        assert Lookup(active, path) == Lookup(initial, path);
      }
    } else if forall i :: 0 <= i < |failures| ==> failures[i].step.Remove? {
      forall path
        ensures Lookup(active, path) == Lookup(initial, path)
      {
      }
      SameLookups(active, initial);
    }
  }

  lemma SameLookups(a: WatchMap, b: WatchMap)
    requires forall path :: Lookup(a, path) == Lookup(b, path)
    ensures a == b
  {
    forall path
      ensures path in a <==> path in b
      ensures path in a ==> a[path] == b[path]
    {
      assert Lookup(a, path) == Lookup(b, path);
    }
  }

  /** Whatever an earlier attempt left behind, a run without failing calls ends in exactly the desired watches. */
  lemma FlawlessRunIsExact(initial: WatchMap, desired: WatchMap, calls: seq<Call>, active: WatchMap,
                           result: Result<seq<CleanupFailure>, WatchError>)
    requires Transaction(initial, desired, calls, active, result) && Flawless(calls)
    ensures result == Ok([]) && active == desired
  {
    assert !Hindered(desired, calls);
    forall path
      ensures Lookup(active, path) == Lookup(desired, path)
    {
      assert !LeftBehind(result.value, path);
    }
    SameLookups(active, desired);
  }

  lemma CallsAreNeeded(initial: WatchMap, desired: WatchMap, calls: seq<Call>, i: nat)
    requires Careful(initial, desired, calls) && i < |calls|
    ensures Lookup(initial, calls[i].path) != Lookup(desired, calls[i].path)
  {
  }

  /** Reconfiguring to the watches already active makes no watcher call. */
  lemma UnchangedNeedsNoCalls(desired: WatchMap, calls: seq<Call>, active: WatchMap,
                              result: Result<seq<CleanupFailure>, WatchError>)
    requires Transaction(desired, desired, calls, active, result)
    ensures calls == [] && result == Ok([]) && active == desired
  {
    hide Careful;
    if calls != [] {
      CallsAreNeeded(desired, desired, calls, 0);
    }
    FlawlessRunIsExact(desired, desired, calls, active, result);
  }

  // ---------------------------------------------------------------- what the calls report

  lemma FaultsAppend(calls: seq<Call>, call: Call)
    ensures Faults(calls + [call]) == Faults(calls) + FaultOf(call)
  {
    assert (calls + [call])[..|calls|] == calls;
  }

  lemma {:induction false} FaultsConcat(a: seq<Call>, b: seq<Call>)
    ensures Faults(a + b) == Faults(a) + Faults(b)
  {
    hide Faults, FaultOf;
    NoFaults();
    if b == [] {
      assert a + b == a;
    } else {
      var n := |b| - 1;
      FaultsConcat(a, b[..n]);
      FaultsAppend(a + b[..n], b[n]);
      FaultsAppend(b[..n], b[n]);
      assert (a + b[..n]) + [b[n]] == a + b && b[..n] + [b[n]] == b;
    }
  }

  lemma {:induction false} FlawlessIffNoFaults(calls: seq<Call>)
    ensures Flawless(calls) <==> Faults(calls) == []
  {
    if calls != [] {
      var n := |calls| - 1;
      FlawlessIffNoFaults(calls[..n]);
      FlawlessAppend(calls[..n], calls[n]);
      assert calls[..n] + [calls[n]] == calls;
    }
  }

  lemma RollbackFaultsConcat(a: seq<RollbackFailure>, b: seq<RollbackFailure>)
    ensures RollbackFaults(a + b) == RollbackFaults(a) + RollbackFaults(b)
  {
  }

  lemma CleanupFaultsAppend(cleanup: seq<CleanupFailure>, path: PathName, error: string)
    ensures CleanupFaults(cleanup + [CleanupFailure(path, error)])
         == CleanupFaults(cleanup) + [Fault(path, false, error)]
  {
  }

  lemma NoFaults()
    ensures Faults([]) == [] && RollbackFaults([]) == [] && CleanupFaults([]) == []
  {
  }

  lemma BlamesLater(calls: seq<Call>, error: string, broken: seq<RollbackFailure>, undoing: seq<Call>,
                    failures: seq<RollbackFailure>)
    requires Blames(calls, error, broken) && Faults(undoing) == RollbackFaults(failures)
    ensures Blames(calls + undoing, error, broken + failures)
  {
    FaultsConcat(calls, undoing);
    RollbackFaultsConcat(broken, failures);
    assert (Faults(calls) + Faults(undoing))[1..] == Faults(calls)[1..] + Faults(undoing);
  }

  lemma BlamesAfter(earlier: seq<Call>, calls: seq<Call>, error: string, broken: seq<RollbackFailure>)
    requires Flawless(earlier) && Blames(calls, error, broken)
    ensures Blames(earlier + calls, error, broken)
  {
    FlawlessIffNoFaults(earlier);
    FaultsConcat(earlier, calls);
    assert [] + Faults(calls) == Faults(calls);
  }

  lemma BlamesFirst(earlier: seq<Call>, call: Call, error: string)
    requires Flawless(earlier) && call.error == Some(error)
    ensures Blames(earlier + [call], error, [])
  {
    FlawlessIffNoFaults(earlier);
    FaultsAppend(earlier, call);
  }

  /** The calls that undo replacements, newest first. */
  ghost predicate UndoesReplacements(replaced: seq<Replacement>, calls: seq<Call>) {
    && |calls| == 2 * |replaced|
    && forall i :: 0 <= i < |replaced| ==>
         var r := replaced[|replaced| - 1 - i];
         && calls[2 * i].path == r.path && calls[2 * i].mode == None
         && calls[2 * i + 1].path == r.path && calls[2 * i + 1].mode == Some(r.oldMode)
  }

  /** The calls that undo installations, newest first. */
  ghost predicate UndoesInstallations(installed: seq<PathName>, calls: seq<Call>) {
    && |calls| == |installed|
    && forall i :: 0 <= i < |installed| ==>
         calls[i].path == installed[|installed| - 1 - i] && calls[i].mode == None
  }

  /** The calls of a rollback: replacements first, newest first, then installations, newest first. */
  ghost predicate UndoesAll(replaced: seq<Replacement>, installed: seq<PathName>, calls: seq<Call>) {
    && |calls| >= 2 * |replaced| && UndoesReplacements(replaced, calls[..2 * |replaced|])
    && UndoesInstallations(installed, calls[2 * |replaced|..])
  }

  lemma UndoesBoth(replaced: seq<Replacement>, installed: seq<PathName>, first: seq<Call>, second: seq<Call>)
    requires UndoesReplacements(replaced, first) && UndoesInstallations(installed, second)
    ensures UndoesAll(replaced, installed, first + second)
  {
    assert (first + second)[..2 * |replaced|] == first && (first + second)[2 * |replaced|..] == second;
  }

  lemma NothingUndone()
    ensures UndoesReplacements([], [])
  {
  }

  lemma UndoneReplacement(replaced: seq<Replacement>, i: nat, calls: seq<Call>, first: Call, second: Call)
    requires i < |replaced| && UndoesReplacements(replaced[i + 1..], calls)
    requires first.path == second.path == replaced[i].path
    requires first.mode == None && second.mode == Some(replaced[i].oldMode)
    ensures UndoesReplacements(replaced[i..], calls + [first] + [second])
  {
    var all := calls + [first] + [second];
    var n := |replaced| - i - 1;
    forall k | 0 <= k < |replaced[i..]|
      ensures var r := replaced[i..][|replaced[i..]| - 1 - k];
        && all[2 * k].path == r.path && all[2 * k].mode == None
        && all[2 * k + 1].path == r.path && all[2 * k + 1].mode == Some(r.oldMode)
    {
      if k < n {
        assert all[2 * k] == calls[2 * k] && all[2 * k + 1] == calls[2 * k + 1];
        assert replaced[i..][n - k] == replaced[i + 1..][n - 1 - k];
      }
    }
  }

  // ---------------------------------------------------------------- the phases

  predicate Distinct<T(==)>(items: seq<T>) {
    forall i, j :: 0 <= i < j < |items| ==> items[i] != items[j]
  }

  ghost predicate DistinctPaths(replaced: seq<Replacement>) {
    forall i, j :: 0 <= i < j < |replaced| ==> replaced[i].path != replaced[j].path
  }

  ghost function Paths(replaced: seq<Replacement>): set<PathName> {
    if replaced == [] then {} else Paths(replaced[..|replaced| - 1]) + {replaced[|replaced| - 1].path}
  }

  ghost function Members(paths: seq<PathName>): set<PathName> {
    set path | path in paths
  }

  lemma {:induction false} PathsAre(replaced: seq<Replacement>, path: PathName)
    ensures path in Paths(replaced) <==> exists i :: 0 <= i < |replaced| && replaced[i].path == path
  {
    if replaced != [] {
      var n := |replaced| - 1;
      PathsAre(replaced[..n], path);
      if i :| 0 <= i < n && replaced[i].path == path {
        assert replaced[..n][i].path == path;
      }
    }
  }

  lemma {:induction false} PathsAppend(a: seq<Replacement>, b: seq<Replacement>)
    ensures Paths(a + b) == Paths(a) + Paths(b)
    ensures Paths([]) == {} && (|b| == 1 ==> Paths(b) == {b[0].path})
  {
    if b == [] {
      assert a + b == a;
    } else {
      var n := |b| - 1;
      PathsAppend(a, b[..n]);
      assert (a + b)[..|a + b| - 1] == a + b[..n];
    }
  }

  /** Replacements that `desired` asks for and `initial` does not have yet. */
  ghost predicate Replacing(initial: WatchMap, desired: WatchMap, replaced: seq<Replacement>) {
    && DistinctPaths(replaced)
    && forall i :: 0 <= i < |replaced| ==>
         && Lookup(initial, replaced[i].path) == Some(replaced[i].oldMode)
         && Lookup(desired, replaced[i].path) == Some(replaced[i].newMode)
         && replaced[i].oldMode != replaced[i].newMode
  }

  ghost predicate Installing(initial: WatchMap, desired: WatchMap, installed: seq<PathName>) {
    && Distinct(installed)
    && forall i :: 0 <= i < |installed| ==> installed[i] in desired && installed[i] !in initial
  }

  /** `active` once exactly the paths in `moved` have taken their desired mode. */
  ghost predicate Moved(initial: WatchMap, desired: WatchMap, active: WatchMap, moved: set<PathName>) {
    forall path :: Lookup(active, path) == if path in moved then Lookup(desired, path) else Lookup(initial, path)
  }

  /** What undoing leaves of the paths in `undone`: the initial mode unless a failure says otherwise. */
  ghost function Undone(initial: WatchMap, before: WatchMap, failures: seq<RollbackFailure>,
                        path: PathName): Option<WatchMode> {
    if Reports(failures, Uninstall, path) then Lookup(before, path)
    else if Reports(failures, Restore, path) then
      if Reports(failures, Remove, path) then Lookup(before, path) else None
    else Lookup(initial, path)
  }

  ghost predicate RolledBack(initial: WatchMap, before: WatchMap, after: WatchMap, undone: set<PathName>,
                             failures: seq<RollbackFailure>) {
    && (forall path :: Lookup(after, path) ==
          if path in undone then Undone(initial, before, failures, path) else Lookup(before, path))
    && (forall i :: 0 <= i < |failures| ==>
          failures[i].path in undone && (failures[i].step.Uninstall? <==> failures[i].path !in initial))
  }

  lemma ReportsAppend(failures: seq<RollbackFailure>, failure: RollbackFailure, step: RollbackStep, path: PathName)
    ensures Reports(failures + [failure], step, path) <==>
      Reports(failures, step, path) || (failure.step == step && failure.path == path)
  {
    var longer := failures + [failure];
    assert longer[|failures|] == failure;
    if i :| 0 <= i < |failures| && failures[i].step == step && failures[i].path == path {
      assert longer[i] == failures[i];
    }
  }

  /** Failures of one more path say nothing about the paths undone before. */
  lemma RolledBackStep(initial: WatchMap, before: WatchMap, middle: WatchMap, after: WatchMap, undone: set<PathName>,
                       failures: seq<RollbackFailure>, path: PathName, more: seq<RollbackFailure>)
    requires RolledBack(initial, before, middle, undone, failures) && path !in undone
    requires forall other :: other != path ==> Lookup(after, other) == Lookup(middle, other)
    requires forall i :: 0 <= i < |more| ==> more[i].path == path && (more[i].step.Uninstall? <==> path !in initial)
    requires Lookup(after, path) == Undone(initial, before, more, path)
    ensures RolledBack(initial, before, after, undone + {path}, failures + more)
  {
    forall step, other
      ensures Reports(failures + more, step, other)
         <==> if other == path then Reports(more, step, other) else Reports(failures, step, other)
    {
      ReportsConcat(failures, more, step, other);
      assert path !in undone && !Reports(failures, step, path);
    }
  }

  lemma {:induction false} ReportsConcat(a: seq<RollbackFailure>, b: seq<RollbackFailure>, step: RollbackStep,
                                         path: PathName)
    ensures Reports(a + b, step, path) <==> Reports(a, step, path) || Reports(b, step, path)
  {
    if b == [] {
      assert a + b == a;
    } else {
      var n := |b| - 1;
      ReportsConcat(a, b[..n], step, path);
      ReportsAppend(a + b[..n], b[n], step, path);
      ReportsAppend(b[..n], b[n], step, path);
      assert (a + b[..n]) + [b[n]] == a + b && b[..n] + [b[n]] == b;
    }
  }

  function ReplacementFailures(path: PathName, removal: Option<string>,
                               restoration: Option<string>): seq<RollbackFailure> {
    (if removal.Some? then [RollbackFailure(Remove, path, removal.value)] else []) +
    (if restoration.Some? then [RollbackFailure(Restore, path, restoration.value)] else [])
  }

  function WithoutReplacement(active: WatchMap, path: PathName, oldMode: WatchMode, removal: Option<string>,
                              restoration: Option<string>): WatchMap {
    var removed := if removal.None? then active - {path} else active;
    if restoration.None? then removed[path := oldMode] else removed
  }

  lemma ReplacementUndone(initial: WatchMap, before: WatchMap, middle: WatchMap, undone: set<PathName>,
                          failures: seq<RollbackFailure>,
                          path: PathName, oldMode: WatchMode, removal: Option<string>, restoration: Option<string>)
    requires RolledBack(initial, before, middle, undone, failures) && path !in undone
          && Lookup(initial, path) == Some(oldMode)
    ensures RolledBack(initial, before, WithoutReplacement(middle, path, oldMode, removal, restoration),
                       undone + {path},
                       failures + ReplacementFailures(path, removal, restoration))
  {
    var more := ReplacementFailures(path, removal, restoration);
    if removal.Some? {
      assert more[0].step == Remove;
    }
    if restoration.Some? {
      assert more[|more| - 1].step == Restore;
    }
    assert Reports(more, Remove, path) <==> removal.Some?;
    assert Reports(more, Restore, path) <==> restoration.Some?;
    assert !Reports(more, Uninstall, path);
    assert Lookup(middle, path) == Lookup(before, path);
    RolledBackStep(initial, before, middle, WithoutReplacement(middle, path, oldMode, removal, restoration), undone,
                   failures, path, more);
  }

  lemma ReplacementFaults(path: PathName, first: Call, removal: Option<string>, second: Call,
                          restoration: Option<string>)
    requires first.path == second.path == path && first.mode == None && second.mode.Some?
    requires first.error == removal && second.error == restoration
    ensures RollbackFaults(ReplacementFailures(path, removal, restoration)) == FaultOf(first) + FaultOf(second)
  {
  }

  lemma RolledBackNothing(initial: WatchMap, before: WatchMap)
    ensures RolledBack(initial, before, before, {}, []) && Flawless([])
  {
  }

  lemma FlawlessAppend(calls: seq<Call>, call: Call)
    ensures Flawless(calls + [call]) <==> Flawless(calls) && call.error.None?
  {
    var longer := calls + [call];
    assert longer[|calls|] == call;
    assert forall i :: 0 <= i < |calls| ==> longer[i] == calls[i];
  }

  function InstallationFailures(path: PathName, removal: Option<string>): seq<RollbackFailure> {
    if removal.Some? then [RollbackFailure(Uninstall, path, removal.value)] else []
  }

  lemma InstallationFaults(path: PathName, call: Call, removal: Option<string>)
    requires call.path == path && call.mode == None && call.error == removal
    ensures RollbackFaults(InstallationFailures(path, removal)) == FaultOf(call)
  {
  }

  lemma InstallationUndone(initial: WatchMap, before: WatchMap, middle: WatchMap, undone: set<PathName>,
                           failures: seq<RollbackFailure>,
                           path: PathName, removal: Option<string>)
    requires RolledBack(initial, before, middle, undone, failures) && path !in undone && path !in initial
    ensures RolledBack(initial, before, if removal.None? then middle - {path} else middle, undone + {path},
                       failures + InstallationFailures(path, removal))
  {
    var more := InstallationFailures(path, removal);
    if removal.Some? {
      assert more[0].step == Uninstall;
    }
    assert Reports(more, Uninstall, path) <==> removal.Some?;
    assert !Reports(more, Restore, path);
    assert Lookup(middle, path) == Lookup(before, path);
    RolledBackStep(initial, before, middle, if removal.None? then middle - {path} else middle, undone, failures, path,
                   more);
  }

  /** `moved` has moved, and the paths that `broken` reports as unrestored are not watched at all. */
  ghost predicate Broken(initial: WatchMap, desired: WatchMap, active: WatchMap, moved: set<PathName>,
                         broken: seq<RollbackFailure>) {
    && (forall path :: Lookup(active, path) ==
          if Reports(broken, Restore, path) then None
          else if path in moved then Lookup(desired, path)
          else Lookup(initial, path))
    && forall i :: 0 <= i < |broken| ==>
         && broken[i].step.Restore? && broken[i].path !in moved
         && broken[i].path in initial && broken[i].path in desired && initial[broken[i].path] != desired[broken[i].path]
  }

  lemma MovedIsUnbroken(initial: WatchMap, desired: WatchMap, active: WatchMap, moved: set<PathName>)
    requires Moved(initial, desired, active, moved)
    ensures Broken(initial, desired, active, moved, [])
  {
  }

  lemma ReplacementMoves(initial: WatchMap, desired: WatchMap, active: WatchMap, moved: set<PathName>, path: PathName,
                         newMode: WatchMode)
    requires Broken(initial, desired, active, moved, []) && Lookup(desired, path) == Some(newMode)
    ensures Broken(initial, desired, (active - {path})[path := newMode], moved + {path}, [])
  {
  }

  function RestoreFailures(path: PathName, restoration: Option<string>): seq<RollbackFailure> {
    if restoration.Some? then [RollbackFailure(Restore, path, restoration.value)] else []
  }

  lemma RestorationBlamed(calls: seq<Call>, call: Call, error: string, path: PathName, restoration: Option<string>)
    requires Blames(calls, error, []) && call.path == path && call.mode.Some? && call.error == restoration
    ensures Blames(calls + [call], error, RestoreFailures(path, restoration))
  {
    FaultsAppend(calls, call);
    assert (Faults(calls) + FaultOf(call))[1..] == Faults(calls)[1..] + FaultOf(call);
  }

  /** A replacement that fails half way is restored or reported. */
  lemma ReplacementBreaks(initial: WatchMap, desired: WatchMap, active: WatchMap, moved: set<PathName>,
                          replacement: Replacement, restoration: Option<string>)
    requires Broken(initial, desired, active, moved, []) && Replacing(initial, desired, [replacement])
          && replacement.path !in moved
    ensures var removed := active - {replacement.path};
      Broken(initial, desired,
             if restoration.None? then removed[replacement.path := replacement.oldMode] else removed, moved,
             RestoreFailures(replacement.path, restoration))
  {
    assert [replacement][0] == replacement;
    var broken := RestoreFailures(replacement.path, restoration);
    if restoration.Some? {
      assert broken[0].step == Restore;
    }
    assert forall path :: Reports(broken, Restore, path) <==> restoration.Some? && path == replacement.path;
  }

  ghost predicate Changing(initial: WatchMap, desired: WatchMap, paths: set<PathName>) {
    forall path :: path in paths ==> path in desired && Lookup(initial, path) != Lookup(desired, path)
  }

  /** Undoing what moved, on top of what could not be restored, leaves what an abort promises. */
  lemma AbortedAfter(initial: WatchMap, desired: WatchMap, before: WatchMap, after: WatchMap, moved: set<PathName>,
                     broken: seq<RollbackFailure>, failures: seq<RollbackFailure>)
    requires Broken(initial, desired, before, moved, broken) && Changing(initial, desired, moved)
    requires RolledBack(initial, before, after, moved, failures)
    ensures Aborted(initial, desired, after, broken + failures)
  {
    forall step, path
      ensures Reports(broken + failures, step, path)
         <==> if path in moved then Reports(failures, step, path) else Reports(broken, step, path)
    {
      ReportsConcat(broken, failures, step, path);
    }
    forall path
      ensures Lookup(after, path) ==
        if Reports(broken + failures, Uninstall, path) then Lookup(desired, path)
        else if Reports(broken + failures, Restore, path) then
          if Reports(broken + failures, Remove, path) then Lookup(desired, path) else None
        else Lookup(initial, path)
    {
      if path in moved {
        assert !Reports(broken, Restore, path);
      }
    }
  }

  /** Calls made before the desired watches are complete: all on desired paths that change. */
  ghost predicate Touching(initial: WatchMap, desired: WatchMap, calls: seq<Call>) {
    forall i :: 0 <= i < |calls| ==>
      calls[i].path in desired && Lookup(initial, calls[i].path) != Lookup(desired, calls[i].path)
  }

  lemma TouchingConcat(initial: WatchMap, desired: WatchMap, a: seq<Call>, b: seq<Call>)
    requires Touching(initial, desired, a) && Touching(initial, desired, b)
    ensures Touching(initial, desired, a + b)
  {
  }

  /** What is left to clean up once every desired watch is in place. */
  ghost predicate Cleaning(initial: WatchMap, desired: WatchMap, active: WatchMap, rest: set<PathName>,
                           cleanup: seq<CleanupFailure>) {
    && (forall path :: Lookup(active, path) ==
          if path in desired then Some(desired[path])
          else if path in rest || LeftBehind(cleanup, path) then Lookup(initial, path)
          else None)
    && (forall i :: 0 <= i < |cleanup| ==>
          cleanup[i].path in initial && cleanup[i].path !in desired && cleanup[i].path !in rest)
    && (forall i, j :: 0 <= i < j < |cleanup| ==> cleanup[i].path != cleanup[j].path)
  }

  lemma CleaningStep(initial: WatchMap, desired: WatchMap, active: WatchMap, rest: set<PathName>,
                     cleanup: seq<CleanupFailure>,
                     path: PathName, error: Option<string>)
    requires Cleaning(initial, desired, active, rest, cleanup) && path in rest && path in initial && path !in desired
    ensures Covers(active, desired)
    ensures Cleaning(initial, desired, if error.None? then active - {path} else active, rest - {path},
                     if error.None? then cleanup else cleanup + [CleanupFailure(path, error.value)])
  {
    if error.Some? {
      var longer := cleanup + [CleanupFailure(path, error.value)];
      assert longer[|cleanup|].path == path;
      assert forall i :: 0 <= i < |cleanup| ==> longer[i] == cleanup[i];
      forall other
        ensures LeftBehind(longer, other) <==> LeftBehind(cleanup, other) || other == path
      {
        if i :| 0 <= i < |cleanup| && cleanup[i].path == other {
          assert longer[i].path == other;
        }
      }
    }
  }

  lemma CleaningStarts(initial: WatchMap, desired: WatchMap)
    ensures CleanupCalls(initial, desired, []) && Flawless([])
  {
  }

  lemma CleaningEnds(initial: WatchMap, desired: WatchMap, active: WatchMap, cleanup: seq<CleanupFailure>)
    requires Cleaning(initial, desired, active, {}, cleanup)
    ensures Committed(initial, desired, active, cleanup)
  {
  }

  lemma UndoneAreApart(initial: WatchMap, desired: WatchMap, installed: seq<PathName>, replaced: seq<Replacement>)
    requires Replacing(initial, desired, replaced) && Installing(initial, desired, installed)
    ensures Distinct(installed)
    ensures forall i :: 0 <= i < |installed| ==> installed[i] !in Paths(replaced) && installed[i] !in initial
  {
    forall i | 0 <= i < |installed|
      ensures installed[i] !in Paths(replaced)
    {
      PathsAre(replaced, installed[i]);
    }
  }

  lemma UndoingTouches(initial: WatchMap, desired: WatchMap, installed: seq<PathName>, replaced: seq<Replacement>,
                       first: seq<Call>, second: seq<Call>)
    requires Replacing(initial, desired, replaced) && Installing(initial, desired, installed)
    requires forall i :: 0 <= i < |first| ==> first[i].path in Paths(replaced)
    requires forall i :: 0 <= i < |second| ==> second[i].path in installed
    ensures Touching(initial, desired, first + second)
  {
    forall path
      ensures path in Paths(replaced) <==> exists i :: 0 <= i < |replaced| && replaced[i].path == path
    {
      PathsAre(replaced, path);
    }
    TouchingConcat(initial, desired, first, second);
  }

  /** The calls of a successful run: unhindered ones on desired paths, then the cleanup. */
  ghost predicate CleanupCalls(initial: WatchMap, desired: WatchMap, calls: seq<Call>) {
    forall i :: 0 <= i < |calls| ==>
      && calls[i].path in initial && calls[i].path !in desired
      && calls[i].mode.None? && Covers(calls[i].before, desired)
  }

  lemma CleanupCallsAppend(initial: WatchMap, desired: WatchMap, calls: seq<Call>, call: Call)
    requires CleanupCalls(initial, desired, calls)
    requires call.path in initial && call.path !in desired && call.mode.None? && Covers(call.before, desired)
    ensures CleanupCalls(initial, desired, calls + [call])
  {
  }

  lemma SuccessfulCalls(initial: WatchMap, desired: WatchMap, a: seq<Call>, b: seq<Call>)
    requires Touching(initial, desired, a) && Flawless(a) && CleanupCalls(initial, desired, b)
    ensures Careful(initial, desired, a + b) && !Hindered(desired, a + b)
    ensures Faults(a + b) == Faults(b)
  {
    FlawlessIffNoFaults(a);
    FaultsConcat(a, b);
    hide Faults;
    var calls := a + b;
    assert forall i :: 0 <= i < |calls| ==> calls[i] == if i < |a| then a[i] else b[i - |a|];
  }

  lemma FailedCalls(initial: WatchMap, desired: WatchMap, a: seq<Call>, b: seq<Call>)
    requires Touching(initial, desired, a) && Touching(initial, desired, b) && Hindered(desired, a)
    ensures Careful(initial, desired, a + b) && Hindered(desired, a + b) && Touching(initial, desired, a + b)
  {
    var calls := a + b;
    assert forall i :: 0 <= i < |calls| ==> calls[i] == if i < |a| then a[i] else b[i - |a|];
    var i :| 0 <= i < |a| && a[i].path in desired && a[i].error.Some?;
    assert calls[i] == a[i];
  }

  lemma FlawlessConcat(a: seq<Call>, b: seq<Call>)
    ensures Flawless(a + b) <==> Flawless(a) && Flawless(b)
  {
    var calls := a + b;
    assert forall i :: 0 <= i < |a| ==> calls[i] == a[i];
    assert forall i :: 0 <= i < |b| ==> calls[|a| + i] == b[i];
  }

  lemma FailureNoticed(calls: seq<Call>, later: seq<Call>, error: string)
    requires FailsFirst(calls, error)
    ensures !Flawless(calls) && FailsFirst(calls + later, error)
  {
    var i :| 0 <= i < |calls| && calls[i].error == Some(error) && Flawless(calls[..i]);
    assert (calls + later)[i] == calls[i] && (calls + later)[..i] == calls[..i];
  }

  lemma FailureAfter(earlier: seq<Call>, calls: seq<Call>, error: string)
    requires Flawless(earlier) && FailsFirst(calls, error)
    ensures FailsFirst(earlier + calls, error)
  {
    var i :| 0 <= i < |calls| && calls[i].error == Some(error) && Flawless(calls[..i]);
    var all := earlier + calls;
    FlawlessConcat(earlier, calls[..i]);
    assert all[|earlier| + i] == calls[i] && all[..|earlier| + i] == earlier + calls[..i];
  }

  lemma FailureHappens(earlier: seq<Call>, call: Call, error: string)
    requires Flawless(earlier) && call.error == Some(error)
    ensures FailsFirst(earlier + [call], error)
  {
    assert (earlier + [call])[|earlier|] == call && (earlier + [call])[..|earlier|] == earlier;
  }

  lemma AbortedRun(initial: WatchMap, desired: WatchMap, reached: WatchMap, after: WatchMap, installed: seq<PathName>,
                   replaced: seq<Replacement>, broken: seq<RollbackFailure>, error: string,
                   failures: seq<RollbackFailure>, calls: seq<Call>, undoing: seq<Call>)
    requires Installing(initial, desired, installed) && Replacing(initial, desired, replaced)
    requires Broken(initial, desired, reached, Members(installed) + Paths(replaced), broken)
    requires RolledBack(initial, reached, after, Paths(replaced) + Members(installed), failures)
    requires Touching(initial, desired, calls) && FailsFirst(calls, error) && Touching(initial, desired, undoing)
    requires Blames(calls, error, broken) && Faults(undoing) == RollbackFaults(failures)
    ensures Transaction(initial, desired, calls + undoing, after, Err(WatchError(error, broken + failures)))
  {
    hide Broken, RolledBack, Aborted, Careful, Hindered, FailsFirst, Flawless, Blames, Faults, RollbackFaults;
    FailureNoticed(calls, undoing, error);
    BlamesLater(calls, error, broken, undoing, failures);
    var moved := Members(installed) + Paths(replaced);
    assert moved == Paths(replaced) + Members(installed);
    forall path | path in moved
      ensures path in desired && Lookup(initial, path) != Lookup(desired, path)
    {
      PathsAre(replaced, path);
    }
    AbortedAfter(initial, desired, reached, after, moved, broken, failures);
    FailingIsHindered(initial, desired, calls);
    FailedCalls(initial, desired, calls, undoing);
  }

  lemma FailingIsHindered(initial: WatchMap, desired: WatchMap, calls: seq<Call>)
    requires Touching(initial, desired, calls) && !Flawless(calls)
    ensures Hindered(desired, calls)
  {
  }

  /** With everything installed and replaced, only undesired watches remain obsolete. */
  lemma ReadyToClean(initial: WatchMap, desired: WatchMap, active: WatchMap, installed: seq<PathName>,
                     replaced: seq<Replacement>, obsolete: seq<PathName>)
    requires Broken(initial, desired, active, Members(installed) + Paths(replaced), [])
    requires Installing(initial, desired, installed) && Replacing(initial, desired, replaced)
    requires forall path :: path in installed <==> path in desired && path !in initial
    requires forall path :: path in initial && path in desired && initial[path] != desired[path] ==>
      path in Paths(replaced)
    requires forall path :: path in obsolete <==> path in active && Lookup(desired, path) != Some(active[path])
    ensures Cleaning(initial, desired, active, Members(obsolete), [])
    ensures forall i :: 0 <= i < |obsolete| ==> obsolete[i] in initial && obsolete[i] !in desired
  {
    forall path
      ensures path in desired ==> Lookup(active, path) == Some(desired[path])
      ensures path !in desired ==> Lookup(active, path) == Lookup(initial, path)
    {
      PathsAre(replaced, path);
    }
    forall i | 0 <= i < |obsolete|
      ensures obsolete[i] in initial && obsolete[i] !in desired
    {
      assert obsolete[i] in obsolete;
    }
  }

  /** Installing new paths leaves the modes to be replaced as they were. */
  lemma PendingSinceStart(initial: WatchMap, desired: WatchMap, active: WatchMap, installed: seq<PathName>,
                          pending: seq<Replacement>)
    requires Moved(initial, desired, active, Members(installed)) && Installing(initial, desired, installed)
    requires Replacing(active, desired, pending)
    ensures Replacing(initial, desired, pending)
    ensures forall i :: 0 <= i < |pending| ==> pending[i].path !in Members(installed)
    ensures forall path :: path in initial && path in desired && initial[path] != desired[path] ==>
      path in active && active[path] != desired[path]
  {
    forall i | 0 <= i < |pending|
      ensures pending[i].path !in installed && Lookup(initial, pending[i].path) == Lookup(active, pending[i].path)
    {
      assert Lookup(active, pending[i].path) != Lookup(desired, pending[i].path);
    }
    forall path | path in initial && path in desired && initial[path] != desired[path]
      ensures path in active && active[path] != desired[path]
    {
      assert path !in installed;
      assert Lookup(active, path) == Lookup(initial, path);
    }
  }

  lemma CommittedRun(initial: WatchMap, desired: WatchMap, calls: seq<Call>, active: WatchMap,
                     cleanup: seq<CleanupFailure>)
    requires Committed(initial, desired, active, cleanup) && Careful(initial, desired, calls)
          && !Hindered(desired, calls)
    requires Faults(calls) == CleanupFaults(cleanup)
    ensures Transaction(initial, desired, calls, active, Ok(cleanup))
  {
    FlawlessIffNoFaults(calls);
    assert CleanupFaults(cleanup) == [] <==> cleanup == [];
  }

  lemma TouchingNothing(initial: WatchMap, desired: WatchMap)
    ensures Touching(initial, desired, [])
  {
  }

  lemma TouchingAppend(initial: WatchMap, desired: WatchMap, calls: seq<Call>, call: Call)
    requires Touching(initial, desired, calls) && call.path in desired
          && Lookup(initial, call.path) != Lookup(desired, call.path)
    ensures Touching(initial, desired, calls + [call])
  {
  }

  lemma ReplacingPrefix(initial: WatchMap, desired: WatchMap, pending: seq<Replacement>, i: nat)
    requires Replacing(initial, desired, pending) && i <= |pending|
    ensures Replacing(initial, desired, pending[..i])
  {
  }

  /** A pending replacement by itself: it changes its path, and no earlier one is for the same path. */
  lemma ReplacingAt(initial: WatchMap, desired: WatchMap, pending: seq<Replacement>, i: nat)
    requires Replacing(initial, desired, pending) && i < |pending|
    ensures Replacing(initial, desired, [pending[i]])
    ensures pending[i].path in desired && Lookup(desired, pending[i].path) == Some(pending[i].newMode)
    ensures Lookup(initial, pending[i].path) != Lookup(desired, pending[i].path)
    ensures forall j :: 0 <= j < i ==> pending[..i][j].path != pending[i].path
  {
  }

  lemma NothingInstalled(initial: WatchMap, desired: WatchMap)
    ensures Installing(initial, desired, []) && Moved(initial, desired, initial, Members([]))
    ensures Touching(initial, desired, []) && Flawless([])
  {
  }

  lemma InstallingNext(initial: WatchMap, desired: WatchMap, additions: seq<PathName>, i: nat)
    requires Installing(initial, desired, additions) && i < |additions|
    ensures additions[i] in desired && Lookup(initial, additions[i]) != Lookup(desired, additions[i])
    ensures Installing(initial, desired, additions[..i + 1]) && additions[..i + 1] == additions[..i] + [additions[i]]
  {
  }

  lemma InstallationMoves(initial: WatchMap, desired: WatchMap, active: WatchMap, installed: seq<PathName>,
                          path: PathName)
    requires Moved(initial, desired, active, Members(installed)) && path in desired
    ensures Moved(initial, desired, active[path := desired[path]], Members(installed + [path]))
  {
    assert Members(installed + [path]) == Members(installed) + {path};
  }

  lemma AdditionsInstall(initial: WatchMap, desired: WatchMap, additions: seq<PathName>)
    requires Distinct(additions) && forall path :: path in additions <==> path in desired.Keys - initial.Keys
    ensures Installing(initial, desired, additions)
  {
    assert forall i :: 0 <= i < |additions| ==> additions[i] in additions;
  }

  lemma NothingReplaced(initial: WatchMap, desired: WatchMap)
    ensures Replacing(initial, desired, []) && Paths([]) == {}
  {
  }

  /** Some order of a finite set; the sorted order of the source's maps is one of them. */
  method Listing(paths: set<PathName>) returns (order: seq<PathName>)
    ensures Distinct(order) && forall path :: path in order <==> path in paths
  {
    order := [];
    var rest := paths;
    while rest != {}
      invariant rest <= paths && forall i, j :: 0 <= i < j < |order| ==> order[i] != order[j]
      invariant forall path :: path in order <==> path in paths - rest
      decreases |rest|
    {
      var path :| path in rest;
      assert path !in order;
      order := order + [path];
      rest := rest - {path};
    }
  }

  /** The watches believed to be active, beside the watcher itself. */
  class Watches {
    const watcher: Watcher
    var active: WatchMap

    ghost predicate Mirrors()
      reads this, watcher
    {
      active == watcher.watched
    }

    constructor (watcher: Watcher)
      requires watcher.watched == map[]
      ensures this.watcher == watcher && active == map[] && Mirrors()
    {
      this.watcher := watcher;
      active := map[];
    }

    method UndoReplacements(ghost initial: WatchMap, ghost desired: WatchMap, replaced: seq<Replacement>)
      returns (failures: seq<RollbackFailure>, ghost calls: seq<Call>)
      requires Mirrors() && Replacing(initial, desired, replaced)
      modifies this`active, watcher
      ensures Mirrors() && watcher.log == old(watcher.log) + calls
      ensures RolledBack(initial, old(active), active, Paths(replaced), failures)
      ensures forall i :: 0 <= i < |calls| ==> calls[i].path in Paths(replaced)
      ensures Faults(calls) == RollbackFaults(failures)
      ensures UndoesReplacements(replaced, calls) && |calls| == 2 * |replaced|
    {
      hide RolledBack, Paths, Faults, FaultOf, RollbackFaults, UndoesReplacements;
      NoFaults();
      NothingUndone();
      failures, calls := [], [];
      assert replaced[|replaced|..] == [];
      ghost var undone: set<PathName> := {};
      RolledBackNothing(initial, active);
      var i := |replaced|;
      while i > 0
        invariant 0 <= i <= |replaced| && Mirrors() && watcher.log == old(watcher.log) + calls
        invariant forall path :: path in undone <==> exists j :: i <= j < |replaced| && replaced[j].path == path
        invariant RolledBack(initial, old(active), active, undone, failures)
        invariant forall k :: 0 <= k < |calls| ==> calls[k].path in undone
        invariant Faults(calls) == RollbackFaults(failures)
        invariant UndoesReplacements(replaced[i..], calls) && |calls| == 2 * (|replaced| - i)
      {
        i := i - 1;
        var path, oldMode := replaced[i].path, replaced[i].oldMode;
        var removal := watcher.Unwatch(path);
        ghost var first := watcher.log[|watcher.log| - 1];
        ghost var middle := active;
        if removal.None? {
          active := active - {path};
        }
        var restoration := watcher.Watch(path, oldMode);
        ghost var second := watcher.log[|watcher.log| - 1];
        if restoration.None? {
          active := active[path := oldMode];
        }
        ReplacementUndone(initial, old(active), middle, undone, failures, path, oldMode, removal, restoration);
        FaultsAppend(calls, first);
        FaultsAppend(calls + [first], second);
        RollbackFaultsConcat(failures, ReplacementFailures(path, removal, restoration));
        ReplacementFaults(path, first, removal, second, restoration);
        UndoneReplacement(replaced, i, calls, first, second);
        calls := calls + [first] + [second];
        failures := failures + ReplacementFailures(path, removal, restoration);
        undone := undone + {path};
      }
      forall path
        ensures path in undone <==> path in Paths(replaced)
      {
        PathsAre(replaced, path);
      }
      assert undone == Paths(replaced) && replaced[0..] == replaced;
    }

    method UndoInstallations(ghost initial: WatchMap, ghost before: WatchMap, ghost undone: set<PathName>,
                             ghost earlier: seq<RollbackFailure>,
                             installed: seq<PathName>)
      returns (failures: seq<RollbackFailure>, ghost calls: seq<Call>)
      requires Mirrors() && Distinct(installed) && RolledBack(initial, before, active, undone, earlier)
      requires forall i :: 0 <= i < |installed| ==> installed[i] !in undone && installed[i] !in initial
      modifies this`active, watcher
      ensures Mirrors() && watcher.log == old(watcher.log) + calls
      ensures RolledBack(initial, before, active, undone + Members(installed), earlier + failures)
      ensures forall i :: 0 <= i < |calls| ==> calls[i].path in installed
      ensures Faults(calls) == RollbackFaults(failures) && UndoesInstallations(installed, calls)
    {
      hide RolledBack, Faults, RollbackFaults;
      failures, calls := [], [];
      NoFaults();
      var i := |installed|;
      ghost var removed: set<PathName> := {};
      assert undone + removed == undone && earlier + failures == earlier;
      while i > 0
        invariant 0 <= i <= |installed| && Mirrors() && watcher.log == old(watcher.log) + calls
        invariant forall path :: path in removed <==> exists j :: i <= j < |installed| && installed[j] == path
        invariant RolledBack(initial, before, active, undone + removed, earlier + failures)
        invariant forall k :: 0 <= k < |calls| ==> calls[k].path in installed
        invariant Faults(calls) == RollbackFaults(failures) && UndoesInstallations(installed[i..], calls)
      {
        i := i - 1;
        var path := installed[i];
        ghost var middle := active;
        var removal := watcher.Unwatch(path);
        FaultsAppend(calls, watcher.log[|watcher.log| - 1]);
        RollbackFaultsConcat(failures, InstallationFailures(path, removal));
        InstallationFaults(path, watcher.log[|watcher.log| - 1], removal);
        calls := calls + [watcher.log[|watcher.log| - 1]];
        if removal.None? {
          active := active - {path};
        }
        InstallationUndone(initial, before, middle, undone + removed, earlier + failures, path, removal);
        assert (undone + removed) + {path} == undone + (removed + {path});
        assert (earlier + failures) + InstallationFailures(path, removal)
            == earlier + (failures + InstallationFailures(path, removal));
        failures := failures + InstallationFailures(path, removal);
        removed := removed + {path};
      }
      assert removed == Members(installed) && installed[0..] == installed;
    }

    /** Undoes the replacements and then the installations, newest first, carrying on past failures. */
    method Rollback(ghost initial: WatchMap, ghost desired: WatchMap, installed: seq<PathName>,
                    replaced: seq<Replacement>)
      returns (failures: seq<RollbackFailure>, ghost calls: seq<Call>)
      requires Mirrors() && Replacing(initial, desired, replaced) && Installing(initial, desired, installed)
      modifies this`active, watcher
      ensures Mirrors() && watcher.log == old(watcher.log) + calls
      ensures RolledBack(initial, old(active), active, Paths(replaced) + Members(installed), failures)
      ensures Touching(initial, desired, calls) && Faults(calls) == RollbackFaults(failures)
      ensures UndoesAll(replaced, installed, calls)
    {
      hide RolledBack, Faults, RollbackFaults, UndoesReplacements, UndoesInstallations, UndoesAll, Paths, Touching,
        Replacing, Installing;
      var first, second;
      ghost var firstCalls, secondCalls;
      UndoneAreApart(initial, desired, installed, replaced);
      first, firstCalls := UndoReplacements(initial, desired, replaced);
      second, secondCalls := UndoInstallations(initial, old(active), Paths(replaced), first, installed);
      failures, calls := first + second, firstCalls + secondCalls;
      FaultsConcat(firstCalls, secondCalls);
      RollbackFaultsConcat(first, second);
      UndoesBoth(replaced, installed, firstCalls, secondCalls);
      UndoingTouches(initial, desired, installed, replaced, firstCalls, secondCalls);
    }

    method InstallAll(desired: WatchMap, additions: seq<PathName>)
      returns (error: Option<string>, installed: seq<PathName>, ghost calls: seq<Call>)
      requires Mirrors() && Installing(active, desired, additions)
      modifies this`active, watcher
      ensures Mirrors() && watcher.log == old(watcher.log) + calls
      ensures Installing(old(active), desired, installed) && (error.None? ==> installed == additions)
      ensures Moved(old(active), desired, active, Members(installed))
      ensures Touching(old(active), desired, calls)
      ensures error.None? <==> Flawless(calls)
      ensures error.Some? ==> FailsFirst(calls, error.value) && Blames(calls, error.value, [])
    {
      hide Moved, Touching, Flawless, FailsFirst, Blames, Installing, Members;
      ghost var initial := active;
      error, installed, calls := None, [], [];
      NothingInstalled(initial, desired);
      for i := 0 to |additions|
        invariant Mirrors() && watcher.log == old(watcher.log) + calls
        invariant installed == additions[..i] && error.None? && Installing(initial, desired, installed)
        invariant Moved(initial, desired, active, Members(installed))
        invariant Touching(initial, desired, calls) && Flawless(calls)
      {
        var path := additions[i];
        InstallingNext(initial, desired, additions, i);
        ghost var before := active;
        error := watcher.Watch(path, desired[path]);
        ghost var call := watcher.log[|watcher.log| - 1];
        FlawlessAppend(calls, call);
        TouchingAppend(initial, desired, calls, call);
        if error.Some? {
          FailureHappens(calls, call, error.value);
          BlamesFirst(calls, call, error.value);
          calls := calls + [call];
          return;
        }
        calls := calls + [call];
        active := active[path := desired[path]];
        InstallationMoves(initial, desired, before, installed, path);
        installed := installed + [path];
      }
    }

    method CleanUp(ghost initial: WatchMap, desired: WatchMap, obsolete: seq<PathName>)
      returns (cleanup: seq<CleanupFailure>, ghost calls: seq<Call>)
      requires Mirrors() && Distinct(obsolete) && Cleaning(initial, desired, active, Members(obsolete), [])
      requires forall i :: 0 <= i < |obsolete| ==> obsolete[i] in initial && obsolete[i] !in desired
      modifies this`active, watcher
      ensures Mirrors() && watcher.log == old(watcher.log) + calls
      ensures Committed(initial, desired, active, cleanup)
      ensures CleanupCalls(initial, desired, calls) && Faults(calls) == CleanupFaults(cleanup)
    {
      hide Cleaning, Committed, CleanupCalls, Faults, CleanupFaults;
      cleanup, calls := [], [];
      NoFaults();
      CleaningStarts(initial, desired);
      ghost var rest := Members(obsolete);
      for i := 0 to |obsolete|
        invariant Mirrors() && watcher.log == old(watcher.log) + calls
        invariant forall path :: path in rest <==> exists j :: i <= j < |obsolete| && obsolete[j] == path
        invariant Cleaning(initial, desired, active, rest, cleanup)
        invariant CleanupCalls(initial, desired, calls) && Faults(calls) == CleanupFaults(cleanup)
      {
        var path := obsolete[i];
        ghost var before := active;
        var error := watcher.Unwatch(path);
        CleaningStep(initial, desired, before, rest, cleanup, path, error);
        CleanupCallsAppend(initial, desired, calls, watcher.log[|watcher.log| - 1]);
        FaultsAppend(calls, watcher.log[|watcher.log| - 1]);
        calls := calls + [watcher.log[|watcher.log| - 1]];
        if error.None? {
          active := active - {path};
        } else {
          CleanupFaultsAppend(cleanup, path, error.value);
          cleanup := cleanup + [CleanupFailure(path, error.value)];
        }
        rest := rest - {path};
      }
      assert rest == {};
      CleaningEnds(initial, desired, active, cleanup);
    }

    /** Replaces modes one by one; `broken` reports the watch that a failure left unrestored. */
    method ReplaceAll(ghost initial: WatchMap, ghost desired: WatchMap, ghost installed: set<PathName>,
                      pending: seq<Replacement>)
      returns (error: Option<string>, replaced: seq<Replacement>, broken: seq<RollbackFailure>, ghost calls: seq<Call>)
      requires Mirrors() && Replacing(initial, desired, pending) && Moved(initial, desired, active, installed)
      requires forall i :: 0 <= i < |pending| ==> pending[i].path !in installed
      modifies this`active, watcher
      ensures Mirrors() && watcher.log == old(watcher.log) + calls
      ensures Replacing(initial, desired, replaced) && (error.None? ==> replaced == pending && broken == [])
      ensures Broken(initial, desired, active, installed + Paths(replaced), broken)
      ensures Touching(initial, desired, calls)
      ensures error.None? <==> Flawless(calls)
      ensures error.Some? ==> FailsFirst(calls, error.value) && Blames(calls, error.value, broken)
    {
      hide Blames, Broken, Flawless, FailsFirst, Moved, Paths, Touching, Replacing, Lookup;
      MovedIsUnbroken(initial, desired, active, installed);
      error, replaced, broken, calls := None, [], [], [];
      PathsAppend([], []);
      assert installed + Paths(replaced) == installed;
      assert Flawless(calls) by {
        RolledBackNothing(initial, initial);
      }
      TouchingNothing(initial, desired);
      ReplacingPrefix(initial, desired, pending, 0);
      for i := 0 to |pending|
        invariant Mirrors() && watcher.log == old(watcher.log) + calls
        invariant replaced == pending[..i] && error.None? && broken == []
        invariant Replacing(initial, desired, replaced)
        invariant Broken(initial, desired, active, installed + Paths(replaced), [])
        invariant Touching(initial, desired, calls) && Flawless(calls)
      {
        var path, oldMode, newMode := pending[i].path, pending[i].oldMode, pending[i].newMode;
        ghost var moved := installed + Paths(replaced);
        PathsAre(replaced, path);
        ReplacingAt(initial, desired, pending, i);
        assert path !in moved;
        error := watcher.Unwatch(path);
        FlawlessAppend(calls, watcher.log[|watcher.log| - 1]);
        TouchingAppend(initial, desired, calls, watcher.log[|watcher.log| - 1]);
        if error.Some? {
          FailureHappens(calls, watcher.log[|watcher.log| - 1], error.value);
          BlamesFirst(calls, watcher.log[|watcher.log| - 1], error.value);
        }
        calls := calls + [watcher.log[|watcher.log| - 1]];
        if error.Some? {
          return;
        }
        ghost var before := active;
        active := active - {path};
        error := watcher.Watch(path, newMode);
        FlawlessAppend(calls, watcher.log[|watcher.log| - 1]);
        TouchingAppend(initial, desired, calls, watcher.log[|watcher.log| - 1]);
        if error.Some? {
          FailureHappens(calls, watcher.log[|watcher.log| - 1], error.value);
          BlamesFirst(calls, watcher.log[|watcher.log| - 1], error.value);
        }
        calls := calls + [watcher.log[|watcher.log| - 1]];
        if error.Some? {
          var restoration := watcher.Watch(path, oldMode);
          FlawlessAppend(calls, watcher.log[|watcher.log| - 1]);
          TouchingAppend(initial, desired, calls, watcher.log[|watcher.log| - 1]);
          FailureNoticed(calls, [watcher.log[|watcher.log| - 1]], error.value);
          RestorationBlamed(calls, watcher.log[|watcher.log| - 1], error.value, path, restoration);
          calls := calls + [watcher.log[|watcher.log| - 1]];
          if restoration.None? {
            active := active[path := oldMode];
          }
          broken := RestoreFailures(path, restoration);
          ReplacementBreaks(initial, desired, before, moved, pending[i], restoration);
          return;
        }
        active := active[path := newMode];
        ReplacementMoves(initial, desired, before, moved, path, newMode);
        ReplacingPrefix(initial, desired, pending, i + 1);
        PathsAppend(replaced, [pending[i]]);
        replaced := replaced + [pending[i]];
        assert moved + {path} == installed + Paths(replaced);
      }
    }

    method Replacements(desired: WatchMap) returns (pending: seq<Replacement>)
      ensures Replacing(active, desired, pending)
      ensures forall path :: path in active && path in desired && active[path] != desired[path] ==>
        path in Paths(pending)
    {
      var current := active;
      var paths := Listing(set path | path in desired && path in active && active[path] != desired[path]);
      assert forall i :: 0 <= i < |paths| ==> paths[i] in paths;
      pending := seq(|paths|, i requires 0 <= i < |paths| && paths[i] in current && paths[i] in desired =>
        Replacement(paths[i], current[paths[i]], desired[paths[i]]));
      forall path | path in active && path in desired && active[path] != desired[path]
        ensures path in Paths(pending)
      {
        assert path in paths;
        var i :| 0 <= i < |paths| && paths[i] == path;
        assert pending[i].path == path;
        PathsAre(pending, path);
      }
    }

    /** Moves to the desired watches or rolls back, reporting every call that stood in the way. */
    method Reconfigure(desired: WatchMap) returns (result: Result<seq<CleanupFailure>, WatchError>,
                                                   ghost calls: seq<Call>)
      requires Mirrors()
      modifies this`active, watcher
      ensures Mirrors() && watcher.log == old(watcher.log) + calls
      ensures Transaction(old(active), desired, calls, active, result)
    {
      hide Transaction, Moved, Touching, Flawless, RolledBack, Broken, Cleaning, CleanupCalls, Committed, Paths,
        Installing,
        Replacing, Careful, Hindered, FailsFirst, Distinct, Lookup, Blames, Faults, RollbackFaults, CleanupFaults,
        UndoesAll;
      ghost var initial := active;
      var additions := Listing(desired.Keys - active.Keys);
      AdditionsInstall(active, desired, additions);
      var error, installed;
      ghost var undoing;
      var failures;
      error, installed, calls := InstallAll(desired, additions);
      if error.Some? {
        MovedIsUnbroken(initial, desired, active, Members(installed));
        NothingReplaced(initial, desired);
        assert Members(installed) == Members(installed) + Paths([]);
        ghost var reached := active;
        failures, undoing := Rollback(initial, desired, installed, []);
        assert [] + failures == failures;
        AbortedRun(initial, desired, reached, active, installed, [], [], error.value, failures, calls, undoing);
        calls := calls + undoing;
        result := Err(WatchError(error.value, failures));
        return;
      }
      var pending := Replacements(desired);
      PendingSinceStart(initial, desired, active, installed, pending);
      var replaced, broken;
      ghost var replacing;
      error, replaced, broken, replacing := ReplaceAll(initial, desired, Members(installed), pending);
      if error.Some? {
        ghost var reached := active;
        failures, undoing := Rollback(initial, desired, installed, replaced);
        TouchingConcat(initial, desired, calls, replacing);
        FailureAfter(calls, replacing, error.value);
        BlamesAfter(calls, replacing, error.value, broken);
        AbortedRun(initial, desired, reached, active, installed, replaced, broken, error.value, failures,
                   calls + replacing, undoing);
        calls := calls + replacing + undoing;
        result := Err(WatchError(error.value, broken + failures));
        return;
      }
      ghost var reached := active;
      var obsolete := Listing(set path | path in active && Lookup(desired, path) != Some(active[path]));
      ReadyToClean(initial, desired, active, installed, pending, obsolete);
      var cleanup;
      ghost var cleaning;
      cleanup, cleaning := CleanUp(initial, desired, obsolete);
      TouchingConcat(initial, desired, calls, replacing);
      FlawlessConcat(calls, replacing);
      SuccessfulCalls(initial, desired, calls + replacing, cleaning);
      calls := calls + replacing + cleaning;
      result := Ok(cleanup);
      assert Transaction(initial, desired, calls, active, result) by {
        CommittedRun(initial, desired, calls, active, cleanup);
      }
    }
  }
}
