/** The breadth-first search that validation runs over the declared call graph. */
module PathSearch {
  import opened Wrappers

  type Node = seq<string>
  type Graph = map<Node, set<Node>>

  function Successors(graph: Graph, node: Node): set<Node> {
    if node in graph then graph[node] else {}
  }

  ghost function Reachable(graph: Graph): set<Node> {
    set a, b | a in graph && b in graph[a] :: b
  }

  ghost predicate EdgeAt(graph: Graph, path: seq<Node>, i: nat) {
    i < |path| - 1 && path[i + 1] in Successors(graph, path[i])
  }

  /** Chains of at least one edge. */
  ghost predicate IsPath(graph: Graph, path: seq<Node>) {
    |path| >= 2 && forall i :: 0 <= i < |path| - 1 ==> EdgeAt(graph, path, i)
  }

  /** A path the search may hold: it leaves one of the starts. */
  ghost predicate SearchPath(graph: Graph, starts: set<Node>, path: seq<Node>) {
    IsPath(graph, path) && path[0] in starts
  }

  predicate EndsIn(path: seq<Node>, forbidden: set<Node>) {
    path != [] && path[|path| - 1] in forbidden
  }

  function Last(path: seq<Node>): Node {
    if path == [] then [] else path[|path| - 1]
  }

  // ---------------------------------------------------------------- the search invariant

  /** Some queued path of length at most `bound` ends in `w`. */
  ghost predicate Queued(queue: seq<seq<Node>>, w: Node, bound: nat) {
    exists k :: 0 <= k < |queue| && Last(queue[k]) == w && |queue[k]| <= bound
  }

  /** `w` was expanded from a path of at most `bound` nodes, or waits at the end of one. */
  ghost predicate Reached(queue: seq<seq<Node>>, depth: map<Node, nat>, w: Node, bound: nat) {
    (w in depth && depth[w] <= bound) || Queued(queue, w, bound)
  }

  /** Everything one edge away from a start, or from an expanded node, is accounted for. */
  ghost predicate Frontier(graph: Graph, starts: set<Node>, queue: seq<seq<Node>>, depth: map<Node, nat>) {
    && (forall s, w :: s in starts && w in Successors(graph, s) ==> Reached(queue, depth, w, 2))
    && (forall v, w :: v in depth && w in Successors(graph, v) ==> Reached(queue, depth, w, depth[v] + 1))
  }

  /** Queued lengths never decrease and span at most two values; nothing expanded was longer than what waits. */
  ghost predicate Layered(queue: seq<seq<Node>>, depth: map<Node, nat>) {
    && (forall i, j :: 0 <= i < j < |queue| ==> |queue[i]| <= |queue[j]|)
    && (forall j :: 0 <= j < |queue| ==> |queue[j]| <= |queue[0]| + 1)
    && (queue != [] ==> forall v :: v in depth ==> depth[v] <= |queue[0]|)
  }

  ghost predicate Holds(graph: Graph, starts: set<Node>, queue: seq<seq<Node>>) {
    forall k :: 0 <= k < |queue| ==> SearchPath(graph, starts, queue[k])
  }

  ghost predicate Searching(graph: Graph, starts: set<Node>, forbidden: set<Node>, queue: seq<seq<Node>>,
                            depth: map<Node, nat>) {
    && depth.Keys <= Reachable(graph) && depth.Keys !! forbidden
    && Holds(graph, starts, queue)
    && Frontier(graph, starts, queue, depth) && Layered(queue, depth)
  }

  /** Along any path each node is reached no later than its position. */
  lemma {:induction false} PathIsReached(graph: Graph, starts: set<Node>, queue: seq<seq<Node>>,
                                         depth: map<Node, nat>, path: seq<Node>, i: nat)
    requires Frontier(graph, starts, queue, depth)
    requires SearchPath(graph, starts, path) && 1 <= i < |path|
    ensures (path[i] in depth && depth[path[i]] <= i + 1) || exists k :: 0 <= k < |queue| && |queue[k]| <= i + 1
  {
    assert EdgeAt(graph, path, i - 1);
    if i == 1 {
      assert Reached(queue, depth, path[1], 2);
    } else {
      PathIsReached(graph, starts, queue, depth, path, i - 1);
      if path[i - 1] in depth && depth[path[i - 1]] <= i {
        assert Reached(queue, depth, path[i], depth[path[i - 1]] + 1);
      }
    }
  }

  /** Nothing shorter than the head of the queue ends in a forbidden node. */
  lemma HeadIsShortest(graph: Graph, starts: set<Node>, forbidden: set<Node>, queue: seq<seq<Node>>,
                       depth: map<Node, nat>, path: seq<Node>)
    requires Searching(graph, starts, forbidden, queue, depth)
    requires SearchPath(graph, starts, path) && EndsIn(path, forbidden)
    ensures queue != [] && |queue[0]| <= |path|
  {
    PathIsReached(graph, starts, queue, depth, path, |path| - 1);
  }

  lemma DropReached(queue: seq<seq<Node>>, depth: map<Node, nat>, w: Node, bound: nat)
    requires queue != [] && Reached(queue, depth, w, bound)
    requires Last(queue[0]) in depth && depth[Last(queue[0])] <= |queue[0]|
    ensures Reached(queue[1..], depth, w, bound)
  {
    if !(w in depth && depth[w] <= bound) {
      var k :| 0 <= k < |queue| && Last(queue[k]) == w && |queue[k]| <= bound;
      assert k > 0 && queue[1..][k - 1] == queue[k];
    }
  }

  lemma DropSeen(graph: Graph, starts: set<Node>, queue: seq<seq<Node>>, depth: map<Node, nat>)
    requires queue != [] && Last(queue[0]) in depth
    requires Frontier(graph, starts, queue, depth) && Layered(queue, depth)
    ensures Frontier(graph, starts, queue[1..], depth) && Layered(queue[1..], depth)
  {
    forall s, w | s in starts && w in Successors(graph, s)
      ensures Reached(queue[1..], depth, w, 2)
    {
      DropReached(queue, depth, w, 2);
    }
    forall v, w | v in depth && w in Successors(graph, v)
      ensures Reached(queue[1..], depth, w, depth[v] + 1)
    {
      DropReached(queue, depth, w, depth[v] + 1);
    }
  }

  lemma MoreReached(queue: seq<seq<Node>>, more: seq<seq<Node>>, depth: map<Node, nat>, v: Node, d: nat, w: Node,
                    bound: nat)
    requires Reached(queue, depth, w, bound) && v !in depth
    ensures Reached(queue + more, depth[v := d], w, bound)
  {
    if !(w in depth && depth[w] <= bound) {
      var k :| 0 <= k < |queue| && Last(queue[k]) == w && |queue[k]| <= bound;
      assert (queue + more)[k] == queue[k];
    }
  }

  ghost predicate Extension(path: seq<Node>, next: set<Node>, longer: seq<Node>) {
    |longer| == |path| + 1 && longer[..|path|] == path && longer[|path|] in next
  }

  /** `longer` holds `path` extended by each element of `next`, and nothing else. */
  ghost predicate Extensions(path: seq<Node>, next: set<Node>, longer: seq<seq<Node>>) {
    && (forall k :: 0 <= k < |longer| ==> Extension(path, next, longer[k]))
    && (forall w :: w in next ==> path + [w] in longer)
  }

  lemma AddFrontier(graph: Graph, starts: set<Node>, queue: seq<seq<Node>>, depth: map<Node, nat>,
                    longer: seq<seq<Node>>)
    requires queue != [] && Last(queue[0]) !in depth
    requires Frontier(graph, starts, queue, depth)
    requires Extensions(queue[0], Successors(graph, Last(queue[0])), longer)
    ensures Frontier(graph, starts, queue + longer, depth[Last(queue[0]) := |queue[0]|])
  {
    var path, v := queue[0], Last(queue[0]);
    var depth' := depth[v := |path|];
    forall s, w | s in starts && w in Successors(graph, s)
      ensures Reached(queue + longer, depth', w, 2)
    {
      MoreReached(queue, longer, depth, v, |path|, w, 2);
    }
    forall u, w | u in depth' && w in Successors(graph, u)
      ensures Reached(queue + longer, depth', w, depth'[u] + 1)
    {
      if u == v {
        assert path + [w] in longer;
        var k :| 0 <= k < |longer| && longer[k] == path + [w];
        assert (queue + longer)[|queue| + k] == longer[k];
      } else {
        MoreReached(queue, longer, depth, v, |path|, w, depth[u] + 1);
      }
    }
  }

  lemma AddLayer(graph: Graph, queue: seq<seq<Node>>, depth: map<Node, nat>, longer: seq<seq<Node>>)
    requires queue != [] && Layered(queue, depth)
    requires Extensions(queue[0], Successors(graph, Last(queue[0])), longer)
    ensures Layered(queue + longer, depth[Last(queue[0]) := |queue[0]|])
  {
    var all := queue + longer;
    forall j | 0 <= j < |all|
      ensures |all[j]| <= |queue[0]| + 1 && (j >= |queue| ==> |all[j]| == |queue[0]| + 1)
    {
      if j >= |queue| {
        assert all[j] == longer[j - |queue|];
        assert Extension(queue[0], Successors(graph, Last(queue[0])), longer[j - |queue|]);
      }
    }
  }

  lemma PathGrows(graph: Graph, path: seq<Node>, w: Node)
    requires path != [] && (|path| >= 2 ==> IsPath(graph, path)) && w in Successors(graph, Last(path))
    ensures IsPath(graph, path + [w])
  {
    var grown := path + [w];
    forall i | 0 <= i < |grown| - 1
      ensures EdgeAt(graph, grown, i)
    {
      assert i < |path| - 1 ==> EdgeAt(graph, path, i);
    }
  }

  lemma HoldsStep(graph: Graph, starts: set<Node>, queue: seq<seq<Node>>, longer: seq<seq<Node>>)
    requires Holds(graph, starts, queue) && queue != []
    requires Extensions(queue[0], Successors(graph, Last(queue[0])), longer)
    ensures Holds(graph, starts, queue + longer)
  {
    var path := queue[0];
    var all := queue + longer;
    forall k | 0 <= k < |all|
      ensures SearchPath(graph, starts, all[k])
    {
      if k < |queue| {
        assert all[k] == queue[k];
      } else {
        var extended := longer[k - |queue|];
        assert all[k] == extended && Extension(path, Successors(graph, Last(path)), extended);
        PathGrows(graph, path, extended[|path|]);
        assert extended == path + [extended[|path|]];
      }
    }
  }

  lemma LastIsReachable(graph: Graph, path: seq<Node>)
    requires IsPath(graph, path)
    ensures Last(path) in Reachable(graph)
  {
    assert EdgeAt(graph, path, |path| - 2);
  }

  lemma StepSearching(graph: Graph, starts: set<Node>, forbidden: set<Node>, queue: seq<seq<Node>>,
                      depth: map<Node, nat>, longer: seq<seq<Node>>)
    requires Searching(graph, starts, forbidden, queue, depth)
    requires queue != [] && Last(queue[0]) !in depth && !EndsIn(queue[0], forbidden)
    requires Extensions(queue[0], Successors(graph, Last(queue[0])), longer)
    ensures Searching(graph, starts, forbidden, queue[1..] + longer, depth[Last(queue[0]) := |queue[0]|])
    ensures Last(queue[0]) in Reachable(graph)
  {
    var depth' := depth[Last(queue[0]) := |queue[0]|];
    var all := queue + longer;
    assert SearchPath(graph, starts, queue[0]);
    LastIsReachable(graph, queue[0]);
    HoldsStep(graph, starts, queue, longer);
    AddFrontier(graph, starts, queue, depth, longer);
    AddLayer(graph, queue, depth, longer);
    assert all[0] == queue[0];
    assert Searching(graph, starts, forbidden, all, depth');
    DropSearching(graph, starts, forbidden, all, depth');
    assert all[1..] == queue[1..] + longer;
  }

  lemma DropSearching(graph: Graph, starts: set<Node>, forbidden: set<Node>, queue: seq<seq<Node>>,
                      depth: map<Node, nat>)
    requires Searching(graph, starts, forbidden, queue, depth)
    requires queue != [] && Last(queue[0]) in depth
    ensures Searching(graph, starts, forbidden, queue[1..], depth)
  {
    DropSeen(graph, starts, queue, depth);
    forall k | 0 <= k < |queue[1..]|
      ensures SearchPath(graph, starts, queue[1..][k])
    {
      assert queue[1..][k] == queue[k + 1];
    }
  }

  // ---------------------------------------------------------------- the search

  method Extend(path: seq<Node>, next: set<Node>) returns (paths: seq<seq<Node>>)
    ensures Extensions(path, next, paths)
  {
    paths := [];
    var rest := next;
    while rest != {}
      invariant rest <= next
      invariant forall k :: 0 <= k < |paths| ==> Extension(path, next, paths[k])
      invariant forall w :: w in next - rest ==> path + [w] in paths
      decreases |rest|
    {
      var w :| w in rest;
      paths := paths + [path + [w]];
      rest := rest - {w};
    }
  }

  ghost predicate Initial(graph: Graph, starts: set<Node>, queue: seq<seq<Node>>) {
    && (forall k :: 0 <= k < |queue| ==> SearchPath(graph, starts, queue[k]) && |queue[k]| == 2)
    && (forall s, w :: s in starts && w in Successors(graph, s) ==> [s, w] in queue)
  }

  lemma InitialGrows(graph: Graph, starts: set<Node>, queue: seq<seq<Node>>, s: Node, paths: seq<seq<Node>>)
    requires Initial(graph, starts, queue) && Extensions([s], Successors(graph, s), paths)
    ensures Initial(graph, starts + {s}, queue + paths)
  {
    var all := queue + paths;
    forall k | 0 <= k < |all|
      ensures SearchPath(graph, starts + {s}, all[k]) && |all[k]| == 2
    {
      if k >= |queue| {
        var extended := paths[k - |queue|];
        assert all[k] == extended && Extension([s], Successors(graph, s), extended);
        PathGrows(graph, [s], extended[1]);
        assert extended == [s] + [extended[1]];
      }
    }
    forall w | w in Successors(graph, s)
      ensures [s, w] in paths
    {
      assert [s] + [w] == [s, w];
    }
  }

  method FirstPaths(graph: Graph, starts: set<Node>) returns (queue: seq<seq<Node>>)
    ensures Initial(graph, starts, queue)
  {
    queue := [];
    var rest := starts;
    while rest != {}
      invariant rest <= starts
      invariant Initial(graph, starts - rest, queue)
      decreases |rest|
    {
      var s :| s in rest;
      var paths := Extend([s], Successors(graph, s));
      InitialGrows(graph, starts - rest, queue, s, paths);
      assert starts - (rest - {s}) == (starts - rest) + {s};
      queue := queue + paths;
      rest := rest - {s};
    }
    assert starts - rest == starts;
  }

  lemma StartSearching(graph: Graph, starts: set<Node>, forbidden: set<Node>, queue: seq<seq<Node>>)
    requires Initial(graph, starts, queue)
    ensures Searching(graph, starts, forbidden, queue, map[])
  {
    forall s, w | s in starts && w in Successors(graph, s)
      ensures Reached(queue, map[], w, 2)
    {
      var k :| 0 <= k < |queue| && queue[k] == [s, w];
      assert Last(queue[k]) == w;
    }
  }

  /** One iteration of the search on a non-empty queue whose head is allowed. */
  method SearchStep(graph: Graph, starts: set<Node>, forbidden: set<Node>, queue: seq<seq<Node>>, seen: set<Node>,
                    ghost depth: map<Node, nat>)
    returns (rest: seq<seq<Node>>, seen': set<Node>, ghost depth': map<Node, nat>)
    requires Searching(graph, starts, forbidden, queue, depth) && depth.Keys == seen
    requires queue != [] && !EndsIn(queue[0], forbidden)
    ensures Searching(graph, starts, forbidden, rest, depth') && depth'.Keys == seen'
    ensures (seen' == seen && |rest| < |queue|) || (seen < seen' <= Reachable(graph))
  {
    hide Holds, Frontier, Layered, Extensions, IsPath;
    var path := queue[0];
    var last := Last(path);
    if last in seen {
      DropSearching(graph, starts, forbidden, queue, depth);
      rest, seen', depth' := queue[1..], seen, depth;
    } else {
      var longer := Extend(path, Successors(graph, last));
      StepSearching(graph, starts, forbidden, queue, depth, longer);
      rest, seen', depth' := queue[1..] + longer, seen + {last}, depth[last := |path|];
    }
  }

  lemma SmallerRemainder(all: set<Node>, seen: set<Node>, seen': set<Node>)
    requires seen < seen' <= all
    ensures |all - seen'| < |all - seen|
  {
    assert seen' - seen != {} by {
      assert !(seen' <= seen);
    }
    assert all - seen == (all - seen') + (seen' - seen);
  }

  /** The search for a path from `starts` into `forbidden`: it terminates on every
      graph, misses nothing, and a reported path is a shortest one. */
  method SearchForbidden(graph: Graph, starts: set<Node>, forbidden: set<Node>) returns (found: Option<seq<Node>>)
    ensures found.None? ==> forall path :: SearchPath(graph, starts, path) ==> !EndsIn(path, forbidden)
    ensures found.Some? ==> SearchPath(graph, starts, found.value) && EndsIn(found.value, forbidden)
    ensures found.Some? ==> forall path :: SearchPath(graph, starts, path) && EndsIn(path, forbidden) ==>
      |found.value| <= |path|
  {
    var queue := FirstPaths(graph, starts);
    var seen: set<Node> := {};
    ghost var depth: map<Node, nat> := map[];
    StartSearching(graph, starts, forbidden, queue);
    while queue != []
      invariant Searching(graph, starts, forbidden, queue, depth) && depth.Keys == seen
      decreases |Reachable(graph) - seen|, |queue|
    {
      if EndsIn(queue[0], forbidden) {
        forall path | SearchPath(graph, starts, path) && EndsIn(path, forbidden)
          ensures |queue[0]| <= |path|
        {
          HeadIsShortest(graph, starts, forbidden, queue, depth, path);
        }
        assert SearchPath(graph, starts, queue[0]);
        return Some(queue[0]);
      }
      ghost var before := seen;
      queue, seen, depth := SearchStep(graph, starts, forbidden, queue, seen, depth);
      if before < seen {
        SmallerRemainder(Reachable(graph), before, seen);
      }
    }
    forall path | SearchPath(graph, starts, path)
      ensures !EndsIn(path, forbidden)
    {
      if EndsIn(path, forbidden) {
        HeadIsShortest(graph, starts, forbidden, queue, depth, path);
      }
    }
    found := None;
  }
}
