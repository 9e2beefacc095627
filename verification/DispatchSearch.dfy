/** Deciding safety of runs with dispatch frames by the search that validates models. */
module DispatchSearch {
  import opened ClassModel
  import opened StaticCheck
  import opened Contracts
  import opened ContractSession
  import opened SessionReference
  import opened StaticSoundness
  import PathSearch

  /** The call graph with an edge from every abstract operation to the overrides it may dispatch to. */
  function WithDispatch(graph: PathSearch.Graph, operations: Operations): PathSearch.Graph {
    map a | a in graph.Keys + operations.Keys ::
      PathSearch.Successors(graph, a) + if a in operations then operations[a].dispatches else {}
  }

  ghost predicate GraphAdmits(operations: Operations, dispatch: bool, graph: PathSearch.Graph) {
    forall a, b :: b in PathSearch.Successors(graph, a) <==> Admits(operations, dispatch, a, b)
  }

  /** The static graph extended by the dispatch edges holds exactly the steps a dispatch run may take. */
  lemma DispatchGraphAdmits(m: Model, operations: Operations, graph: PathSearch.Graph)
    requires WellFormed(m) && Resolved(m, operations) && GraphMatches(m, graph)
    ensures GraphAdmits(operations, false, graph) && GraphAdmits(operations, true, WithDispatch(graph, operations))
  {
    hide WellFormed, Resolved, Permits, Calls;
    forall a, b
      ensures b in PathSearch.Successors(graph, a) <==> Permits(operations, a, b)
    {
      PermissionsAreCalls(m, operations, a, b);
    }
  }

  /** The forbidden-path search for one prohibition of one operation comes back empty. */
  ghost predicate SearchFindsNothing(graph: PathSearch.Graph, id: Key, rule: CallPermission) {
    forall path :: PathSearch.SearchPath(graph, {id}, path) ==> !PathSearch.EndsIn(path, rule.targets)
  }

  lemma AdmittedIsPath(operations: Operations, dispatch: bool, graph: PathSearch.Graph, path: seq<Key>)
    requires GraphAdmits(operations, dispatch, graph) && |path| >= 2
    ensures AdmittedPath(operations, dispatch, path) <==> PathSearch.IsPath(graph, path)
  {
    hide Admits, PathSearch.Successors;
    assert forall i: nat :: i < |path| - 1 ==>
      (AdmitsAt(operations, dispatch, path, i) <==> PathSearch.EdgeAt(graph, path, i));
  }

  /** The same search that validates a model decides safety at run time, with or without dispatch
      frames, once its graph holds the admitted steps. */
  lemma SafeIffSearchesFindNothing(operations: Operations, dispatch: bool, graph: PathSearch.Graph)
    requires GraphAdmits(operations, dispatch, graph)
    ensures Safe(operations, dispatch) <==>
      forall id, rule :: id in operations && rule in operations[id].prohibits ==> SearchFindsNothing(graph, id, rule)
  {
    hide AdmittedPath, PathSearch.IsPath, GraphAdmits;
    if Safe(operations, dispatch) {
      forall id, rule, path | id in operations && rule in operations[id].prohibits
        && PathSearch.SearchPath(graph, {id}, path)
        ensures !PathSearch.EndsIn(path, rule.targets)
      {
        PathsAreLong(graph, path);
        AdmittedIsPath(operations, dispatch, graph, path);
        assert !BreaksRule(operations, dispatch, rule, path);
      }
    } else {
      var rule, path :| BreaksRule(operations, dispatch, rule, path);
      AdmittedIsPath(operations, dispatch, graph, path);
      assert PathSearch.SearchPath(graph, {path[0]}, path) && PathSearch.EndsIn(path, rule.targets);
      assert !SearchFindsNothing(graph, path[0], rule);
    }
  }

  lemma PathsAreLong(graph: PathSearch.Graph, path: seq<Key>)
    requires PathSearch.IsPath(graph, path)
    ensures |path| >= 2
  {
  }

  /** What closes the gap between validation and dispatch: on a model without structural errors,
      searching the graph with dispatch edges from every operation that carries a prohibition finds
      nothing exactly when no run, dispatch frames included, is reported as a forbidden call. */
  lemma DispatchSearchIsExact(m: Model, operations: Operations, graph: PathSearch.Graph, roots: set<Key>, start: State)
    requires WellFormed(m) && Resolved(m, operations) && GraphMatches(m, graph) && Initial(operations, roots, start)
    ensures
      (forall id, rule :: id in operations && rule in operations[id].prohibits ==>
          SearchFindsNothing(WithDispatch(graph, operations), id, rule)) <==>
      forall calls :: AdmittedRun(operations, roots, start, calls, true) ==>
        !FindsForbidden(Run(operations, roots, start, calls))
  {
    hide *;
    DispatchGraphAdmits(m, operations, graph);
    SafeIffSearchesFindNothing(operations, true, WithDispatch(graph, operations));
    SafeIffNeverForbidden(operations, true, roots, start);
  }
}
