/** The bounded revision history of the live inspector, the maps that hang off it, and what every call keeps. */
module Retention {
  import opened Decimals
  import opened Wrappers

  type RunHandle = string

  type Page = seq<string>

  datatype Version = Version(generation: nat, salsa: nat)

  datatype Cause = Initial | InputEdit(batch: string) | WorkspaceReload(previous: string)

  datatype InputDelta = InputDelta(path: string, before: string, after: string)

  datatype Revision = Revision(version: Version, cause: Cause, deltas: seq<InputDelta>, runs: seq<RunHandle>)

  datatype RunObservation = RunObservation(runId: RunHandle, request: string)

  datatype RetainedProduct = RetainedProduct(frozen: string, run: RunHandle)

  datatype ProductKey = ProductKey(revision: string, symbol: string, product: string)

  /** What the host computes for a product: its frozen form and its continuation pages by suffix. */
  datatype Generated = Generated(frozen: string, pages: map<string, Page>)

  datatype Store = Store(
    version: Version, sources: map<string, string>, nextEditBatch: nat, nextRun: nat, nextContinuation: nat,
    runs: map<RunHandle, RunObservation>, continuations: map<string, Page>, revisions: seq<Revision>,
    products: map<ProductKey, RetainedProduct>)

  datatype ApiError = Unrepresented(path: string) | NoInputChanges | ReloadFailed(message: string) | ProductNotFound

  const LIMIT: nat := 64

  function IdOf(version: Version): string {
    "db" + Decimal(version.generation) + "-" + ("rev" + Decimal(version.salsa))
  }

  function HandleOf(number: nat): RunHandle {
    "run_" + Decimal(number)
  }

  function Opened(version: Version, sources: map<string, string>): Store {
    Store(version.(generation := 0), sources, 0, 0, 0, map[], map[],
          [Revision(version.(generation := 0), Initial, [], [])], map[])
  }

  // ---------------------------------------------------------------- transitions

  function Push(store: Store, revision: Revision): Store {
    var pushed := store.revisions + [revision];
    if |pushed| <= LIMIT then store.(revisions := pushed)
    else
      var expired := pushed[0];
      store.(
        revisions := pushed[1..],
        runs := map run | run in store.runs && run !in expired.runs :: store.runs[run],
        products := map key | key in store.products && key.revision != IdOf(expired.version) :: store.products[key],
        continuations := map handle | handle in store.continuations && !(IdOf(expired.version) + "_" <= handle) ::
          store.continuations[handle])
  }

  /** Keeps one finished run under the newest revision. */
  function Record(store: Store, request: string): Store
    requires store.revisions != []
  {
    var run := HandleOf(store.nextRun + 1);
    var n := |store.revisions| - 1;
    store.(
      nextRun := store.nextRun + 1,
      runs := store.runs[run := RunObservation(run, request)],
      revisions := store.revisions[n := store.revisions[n].(runs := store.revisions[n].runs + [run])])
  }

  function PrefixedHandles(prefix: string, suffixes: set<string>): (handles: set<string>)
    ensures forall handle :: handle in handles ==> prefix <= handle && handle[|prefix|..] in suffixes
  {
    var handles := set suffix | suffix in suffixes :: prefix + suffix;
    assert forall suffix :: suffix in suffixes ==> (prefix + suffix)[|prefix|..] == suffix;
    handles
  }

  function Renamed(prefix: string, pages: map<string, Page>): map<string, Page> {
    map handle | handle in PrefixedHandles(prefix, pages.Keys) :: pages[handle[|prefix|..]]
  }

  function ProductPrefix(store: Store): string {
    IdOf(store.version) + "_product_" + Decimal(store.nextContinuation)
  }

  /** One product request; `generated` is `None` when the symbol does not list the product. */
  function Inspect(store: Store, symbol: string, product: string,
                   generated: Option<Generated>): (Store, Result<RunHandle, ApiError>)
    requires store.revisions != []
  {
    var counted := store.(nextContinuation := store.nextContinuation + 1);
    match generated
    case None => (counted, Err(ProductNotFound))
    case Some(value) =>
      var run := HandleOf(store.nextRun + 1);
      var extended := counted.(continuations := counted.continuations + Renamed(ProductPrefix(counted), value.pages));
      var recorded := Record(extended, symbol);
      var key := ProductKey(IdOf(store.version), symbol, product);
      (recorded.(products := recorded.products[key := RetainedProduct(value.frozen, run)]), Ok(run))
  }

  datatype Update = Update(path: string, text: string)

  datatype Applied = Applied(sources: map<string, string>, salsa: nat, deltas: seq<InputDelta>)

  /** Every text that really changes advances the database by one revision. */
  function ApplyTexts(sources: map<string, string>, salsa: nat, updates: seq<Update>): (applied: Applied)
    requires forall i :: 0 <= i < |updates| ==> updates[i].path in sources
    ensures applied.sources.Keys == sources.Keys && applied.salsa == salsa + |applied.deltas|
  {
    if updates == [] then Applied(sources, salsa, [])
    else
      var front, last := ApplyTexts(sources, salsa, updates[..|updates| - 1]), updates[|updates| - 1];
      var before := front.sources[last.path];
      if before == last.text then front
      else Applied(front.sources[last.path := last.text], front.salsa + 1,
                   front.deltas + [InputDelta(last.path, before, last.text)])
  }

  /** The first update of a file the host does not know. */
  function Unknown(sources: map<string, string>, updates: seq<Update>): (path: Option<string>)
    ensures path.None? <==> forall i :: 0 <= i < |updates| ==> updates[i].path in sources
  {
    if updates == [] then None
    else if updates[0].path !in sources then Some(updates[0].path)
    else
      assert forall i :: 1 <= i < |updates| ==> updates[i] == updates[1..][i - 1];
      assert forall i :: 0 <= i < |updates[1..]| ==> updates[1..][i] == updates[i + 1];
      Unknown(sources, updates[1..])
  }

  function Updated(store: Store, updates: seq<Update>): (Store, Result<string, ApiError>) {
    var unknown := Unknown(store.sources, updates);
    if unknown.Some? then (store, Err(Unrepresented(unknown.value)))
    else
      var applied := ApplyTexts(store.sources, store.version.salsa, updates);
      var moved := store.(sources := applied.sources, version := store.version.(salsa := applied.salsa));
      if applied.deltas == [] then (moved, Err(NoInputChanges))
      else
        var batch := "edit-" + Decimal(store.nextEditBatch + 1);
        (Push(moved.(nextEditBatch := store.nextEditBatch + 1),
              Revision(moved.version, InputEdit(batch), applied.deltas, [])), Ok(IdOf(moved.version)))
  }

  /** The host is rebuilt, if that succeeds, with its own fresh database. */
  datatype Reloaded = Reloaded(sources: map<string, string>, salsa: nat)

  function Reload(store: Store, outcome: Result<Reloaded, string>): (Store, Result<string, ApiError>) {
    match outcome
    case Err(message) => (store, Err(ReloadFailed(message)))
    case Ok(host) =>
      var version := Version(store.version.generation + 1, host.salsa);
      var fresh_ := store.(version := version, sources := host.sources, continuations := map[]);
      (Push(fresh_, Revision(version, WorkspaceReload(IdOf(store.version)), [], [])), Ok(IdOf(version)))
  }

  datatype Call =
    | RecordCall(request: string)
    | InspectCall(symbol: string, product: string, generated: Option<Generated>)
    | UpdateCall(updates: seq<Update>)
    | ReloadCall(outcome: Result<Reloaded, string>)

  function Step(store: Store, call: Call): Store
    requires store.revisions != []
  {
    match call
    case RecordCall(request) => Record(store, request)
    case InspectCall(symbol, product, generated) => Inspect(store, symbol, product, generated).0
    case UpdateCall(updates) => Updated(store, updates).0
    case ReloadCall(outcome) => Reload(store, outcome).0
  }

  // ---------------------------------------------------------------- names

  lemma IdInjective(a: Version, b: Version)
    ensures IdOf(a) == IdOf(b) <==> a == b
  {
    if IdOf(a) == IdOf(b) {
      DecimalDigits(a.salsa);
      DecimalDigits(b.salsa);
      LastHyphenSplits("db" + Decimal(a.generation), "rev" + Decimal(a.salsa), "db" + Decimal(b.generation),
                       "rev" + Decimal(b.salsa));
      assert ("db" + Decimal(a.generation))[2..] == Decimal(a.generation)
          && ("db" + Decimal(b.generation))[2..] == Decimal(b.generation);
      assert ("rev" + Decimal(a.salsa))[3..] == Decimal(a.salsa) && ("rev" + Decimal(b.salsa))[3..] == Decimal(b.salsa);
      DecimalInjective(a.generation, b.generation);
      DecimalInjective(a.salsa, b.salsa);
    }
  }

  lemma IdHasNoUnderscore(version: Version)
    ensures '_' !in IdOf(version)
  {
    DecimalDigits(version.generation);
    DecimalDigits(version.salsa);
  }

  predicate Belongs(handle: string, version: Version) {
    IdOf(version) + "_" <= handle
  }

  lemma UnderscoreInside(handle: string, x: string, y: string)
    requires x + "_" <= handle && y + "_" <= handle && |x| < |y|
    ensures '_' in y
  {
    assert (x + "_")[|x|] == '_' && handle[|x|] == '_';
    assert (y + "_")[|x|] == y[|x|];
  }

  /** A continuation handle belongs to one revision only. */
  lemma BelongsToOne(handle: string, a: Version, b: Version)
    requires Belongs(handle, a) && Belongs(handle, b)
    ensures a == b
  {
    hide IdOf;
    IdHasNoUnderscore(a);
    IdHasNoUnderscore(b);
    var x, y := IdOf(a), IdOf(b);
    if |x| < |y| {
      UnderscoreInside(handle, x, y);
    } else if |y| < |x| {
      UnderscoreInside(handle, y, x);
    }
    assert x == (x + "_")[..|x|] && y == (y + "_")[..|y|];
    IdInjective(a, b);
  }

  lemma HandleInjective(a: nat, b: nat)
    ensures HandleOf(a) == HandleOf(b) <==> a == b
  {
    if HandleOf(a) == HandleOf(b) {
      assert HandleOf(a)[4..] == Decimal(a) && HandleOf(b)[4..] == Decimal(b);
      DecimalInjective(a, b);
    }
  }

  // ---------------------------------------------------------------- what every call keeps

  predicate Newer(a: Version, b: Version) {
    a.generation < b.generation || (a.generation == b.generation && a.salsa < b.salsa)
  }

  /** The handles listed by the retained revisions, oldest first. */
  function Listed(revisions: seq<Revision>): seq<RunHandle> {
    if revisions == [] then [] else Listed(revisions[..|revisions| - 1]) + revisions[|revisions| - 1].runs
  }

  /** The handles from one number up to another. */
  ghost predicate Consecutive(handles: seq<RunHandle>, last: nat) {
    |handles| <= last && forall i :: 0 <= i < |handles| ==> handles[i] == HandleOf(last - |handles| + 1 + i)
  }

  ghost predicate HistoryBounded(store: Store) {
    && 1 <= |store.revisions| <= LIMIT
    && store.revisions[|store.revisions| - 1].version == store.version
    && forall i, j :: 0 <= i < j < |store.revisions| ==> Newer(store.revisions[i].version, store.revisions[j].version)
  }

  /** The run table holds exactly the runs listed by retained revisions, numbered without gaps up to the newest. */
  ghost predicate RunsListed(store: Store) {
    && Consecutive(Listed(store.revisions), store.nextRun)
    && (forall run :: run in store.runs <==> run in Listed(store.revisions))
    && (forall run :: run in store.runs ==> store.runs[run].runId == run)
  }

  ghost predicate Retains(revisions: seq<Revision>, id: string) {
    exists i :: 0 <= i < |revisions| && IdOf(revisions[i].version) == id
  }

  ghost predicate RetainsRun(revisions: seq<Revision>, id: string, run: RunHandle) {
    exists i :: 0 <= i < |revisions| && IdOf(revisions[i].version) == id && run in revisions[i].runs
  }

  ghost predicate RetainsHandle(revisions: seq<Revision>, handle: string) {
    exists i :: 0 <= i < |revisions| && Belongs(handle, revisions[i].version)
  }

  /** Products belong to retained revisions, together with the run that computed them. */
  ghost predicate ProductsRetained(store: Store) {
    forall key :: key in store.products ==> RetainsRun(store.revisions, key.revision, store.products[key].run)
  }

  ghost predicate PagesRetained(store: Store) {
    forall handle :: handle in store.continuations ==> RetainsHandle(store.revisions, handle)
  }

  ghost predicate Consistent(store: Store) {
    HistoryBounded(store) && RunsListed(store) && ProductsRetained(store) && PagesRetained(store)
  }

  lemma OpenedConsistent(version: Version, sources: map<string, string>)
    ensures Consistent(Opened(version, sources))
  {
    var store := Opened(version, sources);
    assert store.revisions[..0] == [];
    assert Listed(store.revisions) == [];
  }

  // ---------------------------------------------------------------- recording

  lemma ListedSnoc(front: seq<Revision>, last: Revision)
    ensures Listed(front + [last]) == Listed(front) + last.runs
  {
    assert (front + [last])[..|front|] == front;
  }

  lemma RecordKeepsHistory(store: Store, request: string)
    requires HistoryBounded(store)
    ensures HistoryBounded(Record(store, request))
  {
    hide HandleOf, Newer;
    var after := Record(store, request);
    assert forall i :: 0 <= i < |after.revisions| ==> after.revisions[i].version == store.revisions[i].version;
  }

  lemma RecordLists(store: Store, request: string)
    requires store.revisions != []
    ensures Listed(Record(store, request).revisions) == Listed(store.revisions) + [HandleOf(store.nextRun + 1)]
  {
    hide HandleOf;
    var n := |store.revisions| - 1;
    var front, last := store.revisions[..n], store.revisions[n];
    var run := HandleOf(store.nextRun + 1);
    assert store.revisions == front + [last];
    assert Record(store, request).revisions == front + [last.(runs := last.runs + [run])];
    ListedSnoc(front, last);
    ListedSnoc(front, last.(runs := last.runs + [run]));
  }

  lemma RecordKeepsRuns(store: Store, request: string)
    requires store.revisions != [] && RunsListed(store)
    ensures RunsListed(Record(store, request))
  {
    hide HandleOf, Listed;
    RecordLists(store, request);
    HandlesSnoc(Listed(store.revisions), store.nextRun);
  }

  lemma HandlesSnoc(handles: seq<RunHandle>, last: nat)
    requires Consecutive(handles, last)
    ensures Consecutive(handles + [HandleOf(last + 1)], last + 1)
  {
    hide HandleOf;
  }

  /** A recorded run stays with the newest revision and disturbs no other listing. */
  lemma RecordRetains(store: Store, request: string, id: string, run: RunHandle, handle: string)
    requires store.revisions != []
    ensures RetainsRun(store.revisions, id, run) ==> RetainsRun(Record(store, request).revisions, id, run)
    ensures RetainsHandle(Record(store, request).revisions, handle) <==> RetainsHandle(store.revisions, handle)
    ensures RetainsRun(Record(store, request).revisions, IdOf(store.revisions[|store.revisions| - 1].version),
                       HandleOf(store.nextRun + 1))
  {
    hide IdOf, HandleOf, Belongs;
    var n := |store.revisions| - 1;
    var after := Record(store, request).revisions;
    assert forall i :: 0 <= i < |after| ==> after[i].version == store.revisions[i].version;
    if i :| 0 <= i < |store.revisions| && IdOf(store.revisions[i].version) == id && run in store.revisions[i].runs {
      assert run in after[i].runs;
    }
    if i :| 0 <= i < |store.revisions| && Belongs(handle, store.revisions[i].version) {
      assert Belongs(handle, after[i].version);
    }
    if i :| 0 <= i < |after| && Belongs(handle, after[i].version) {
      assert Belongs(handle, store.revisions[i].version);
    }
    assert HandleOf(store.nextRun + 1) in after[n].runs;
  }

  lemma RecordConsistent(store: Store, request: string)
    requires Consistent(store)
    ensures Consistent(Record(store, request))
  {
    hide HistoryBounded, RunsListed, RetainsRun, RetainsHandle, IdOf, HandleOf;
    assert store.revisions != [] by {
      HistoryIsNotEmpty(store);
    }
    RecordKeepsHistory(store, request);
    RecordKeepsRuns(store, request);
    var after := Record(store, request);
    forall key | key in after.products
      ensures RetainsRun(after.revisions, key.revision, after.products[key].run)
    {
      RecordRetains(store, request, key.revision, store.products[key].run, "");
    }
    forall handle | handle in after.continuations
      ensures RetainsHandle(after.revisions, handle)
    {
      RecordRetains(store, request, "", "", handle);
    }
  }

  lemma HistoryIsNotEmpty(store: Store)
    requires HistoryBounded(store)
    ensures store.revisions != [] && store.revisions[|store.revisions| - 1].version == store.version
  {
  }

  lemma RunsCarry(store: Store, other: Store)
    requires RunsListed(store) && other.revisions == store.revisions && other.runs == store.runs
          && other.nextRun == store.nextRun
    ensures RunsListed(other)
  {
  }

  lemma PagesAdded(store: Store, pages: map<string, Page>)
    requires Consistent(store)
    ensures Consistent(store.(continuations := store.continuations + Renamed(ProductPrefix(store), pages)))
  {
    hide RetainsRun, RetainsHandle, IdOf, ProductPrefix, RunsListed;
    var added := Renamed(ProductPrefix(store), pages);
    RunsCarry(store, store.(continuations := store.continuations + added));
    forall handle | handle in store.continuations + added
      ensures RetainsHandle(store.revisions, handle)
    {
      if handle in added {
        NewHandleRetained(store, handle);
      }
    }
  }

  lemma ProductAdded(store: Store, key: ProductKey, product: RetainedProduct)
    requires Consistent(store) && RetainsRun(store.revisions, key.revision, product.run)
    ensures Consistent(store.(products := store.products[key := product]))
  {
    hide RetainsRun, RetainsHandle, RunsListed;
    RunsCarry(store, store.(products := store.products[key := product]));
  }

  lemma InspectConsistent(store: Store, symbol: string, product: string, generated: Option<Generated>)
    requires Consistent(store)
    ensures Consistent(Inspect(store, symbol, product, generated).0)
  {
    hide HistoryBounded, RunsListed, ProductsRetained, PagesRetained, RetainsRun, IdOf, HandleOf, Record, ProductPrefix;
    HistoryIsNotEmpty(store);
    var counted := store.(nextContinuation := store.nextContinuation + 1);
    CountingKeeps(store);
    if generated.Some? {
      var extended :=
        counted.(continuations := counted.continuations + Renamed(ProductPrefix(counted), generated.value.pages));
      PagesAdded(counted, generated.value.pages);
      RecordConsistent(extended, symbol);
      RecordRetains(extended, symbol, "", "", "");
      var key := ProductKey(IdOf(store.version), symbol, product);
      ProductAdded(Record(extended, symbol), key, RetainedProduct(generated.value.frozen, HandleOf(store.nextRun + 1)));
    }
  }

  lemma CountingKeeps(store: Store)
    requires Consistent(store)
    ensures Consistent(store.(nextContinuation := store.nextContinuation + 1))
  {
  }

  lemma NewHandleRetained(store: Store, handle: string)
    requires HistoryBounded(store) && ProductPrefix(store) <= handle
    ensures RetainsHandle(store.revisions, handle)
  {
    hide IdOf;
    var id := IdOf(store.version);
    assert ProductPrefix(store)[..|id| + 1] == id + "_";
    assert Belongs(handle, store.revisions[|store.revisions| - 1].version);
  }

  // ---------------------------------------------------------------- new revisions and expiry

  lemma {:induction false} ListedCons(first: Revision, rest: seq<Revision>)
    ensures Listed([first] + rest) == first.runs + Listed(rest)
  {
    if rest == [] {
      assert [first] + rest == [first] && [first][..0] == [];
    } else {
      var n := |rest| - 1;
      ListedCons(first, rest[..n]);
      assert ([first] + rest)[..n + 1] == [first] + rest[..n];
    }
  }

  lemma ConsecutiveDistinct(handles: seq<RunHandle>, last: nat, i: nat, j: nat)
    requires Consecutive(handles, last) && i < j < |handles|
    ensures handles[i] != handles[j]
  {
    HandleInjective(last - |handles| + 1 + i, last - |handles| + 1 + j);
  }

  lemma ConsecutiveSuffix(first: seq<RunHandle>, rest: seq<RunHandle>, last: nat)
    requires Consecutive(first + rest, last)
    ensures Consecutive(rest, last)
    ensures forall run :: run in rest ==> run !in first
  {
    hide HandleOf;
    var handles := first + rest;
    assert forall i :: 0 <= i < |rest| ==> rest[i] == handles[|first| + i];
    forall i, j | 0 <= i < |first| && 0 <= j < |rest|
      ensures first[i] != rest[j]
    {
      assert first[i] == handles[i];
      ConsecutiveDistinct(handles, last, i, |first| + j);
    }
  }

  /** A store before a push: everything is in order but the newest revision is still missing. */
  ghost predicate Ready(store: Store, revision: Revision) {
    && 1 <= |store.revisions| <= LIMIT
    && (forall i, j :: 0 <= i < j < |store.revisions| ==> Newer(store.revisions[i].version, store.revisions[j].version))
    && (forall i :: 0 <= i < |store.revisions| ==> Newer(store.revisions[i].version, revision.version))
    && revision.version == store.version && revision.runs == []
    && RunsListed(store) && ProductsRetained(store) && PagesRetained(store)
  }

  lemma PushHistory(store: Store, revision: Revision)
    requires Ready(store, revision)
    ensures HistoryBounded(Push(store, revision))
  {
    hide IdOf, RunsListed, ProductsRetained, PagesRetained;
    var pushed := store.revisions + [revision];
    assert forall i, j :: 0 <= i < j < |pushed| ==> Newer(pushed[i].version, pushed[j].version);
  }

  lemma PushedRuns(store: Store, revision: Revision)
    requires store.revisions != []
    ensures var after, pushed := Push(store, revision), store.revisions + [revision];
      && after.revisions == (if |pushed| <= LIMIT then pushed else pushed[1..]) && after.nextRun == store.nextRun
      && (forall run :: run in after.runs
            <==> run in store.runs && (|pushed| > LIMIT ==> run !in store.revisions[0].runs))
      && (forall run :: run in after.runs ==> after.runs[run] == store.runs[run])
  {
    hide IdOf;
  }

  lemma PushRuns(store: Store, revision: Revision)
    requires store.revisions != [] && RunsListed(store) && revision.runs == []
    ensures RunsListed(Push(store, revision))
  {
    hide Push, Consecutive, Listed;
    PushedRuns(store, revision);
    var first, rest := store.revisions[0], store.revisions[1..] + [revision];
    ListedSnoc(store.revisions, revision);
    assert Listed(store.revisions) + [] == Listed(store.revisions);
    assert store.revisions + [revision] == [first] + rest;
    if |store.revisions| >= LIMIT {
      assert (store.revisions + [revision])[1..] == rest;
      ListedCons(first, rest);
      ConsecutiveSuffix(first.runs, Listed(rest), store.nextRun);
    }
  }

  /** Retained revisions have different ids, so expiring one leaves the others' products and pages alone. */
  lemma ExpiredApart(revisions: seq<Revision>, i: nat)
    requires 0 < i < |revisions| && Newer(revisions[0].version, revisions[i].version)
    ensures IdOf(revisions[i].version) != IdOf(revisions[0].version)
    ensures forall handle :: Belongs(handle, revisions[i].version) ==> !Belongs(handle, revisions[0].version)
  {
    hide IdOf, Belongs;
    IdInjective(revisions[0].version, revisions[i].version);
    forall handle | Belongs(handle, revisions[i].version)
      ensures !Belongs(handle, revisions[0].version)
    {
      if Belongs(handle, revisions[0].version) {
        BelongsToOne(handle, revisions[0].version, revisions[i].version);
      }
    }
  }

  lemma RetainedAfterPush(revisions: seq<Revision>, revision: Revision, id: string, run: RunHandle, handle: string)
    requires |revisions| > 0
    ensures RetainsRun(revisions, id, run) ==> RetainsRun(revisions + [revision], id, run)
    ensures RetainsHandle(revisions, handle) ==> RetainsHandle(revisions + [revision], handle)
    ensures RetainsRun(revisions, id, run) && id != IdOf(revisions[0].version) ==>
      RetainsRun((revisions + [revision])[1..], id, run)
    ensures RetainsHandle(revisions, handle) && !Belongs(handle, revisions[0].version) ==>
      RetainsHandle((revisions + [revision])[1..], handle)
  {
    hide IdOf, Belongs;
    var pushed := revisions + [revision];
    assert forall i :: 0 <= i < |revisions| ==> pushed[i] == revisions[i];
    if i :| 0 <= i < |revisions| && IdOf(revisions[i].version) == id && run in revisions[i].runs {
      assert run in pushed[i].runs;
      if i > 0 {
        assert pushed[1..][i - 1] == revisions[i];
      }
    }
    if i :| 0 <= i < |revisions| && Belongs(handle, revisions[i].version) {
      assert Belongs(handle, pushed[i].version);
      if i > 0 {
        assert pushed[1..][i - 1] == revisions[i];
      }
    }
  }

  lemma PushConsistent(store: Store, revision: Revision)
    requires Ready(store, revision)
    ensures Consistent(Push(store, revision))
  {
    PushHistory(store, revision);
    PushRuns(store, revision);
    hide HistoryBounded, RunsListed, IdOf, RetainsRun, RetainsHandle, Newer;
    var after := Push(store, revision);
    forall key | key in after.products
      ensures RetainsRun(after.revisions, key.revision, after.products[key].run)
    {
      RetainedAfterPush(store.revisions, revision, key.revision, store.products[key].run, "");
    }
    forall handle | handle in after.continuations
      ensures RetainsHandle(after.revisions, handle)
    {
      RetainedAfterPush(store.revisions, revision, "", "", handle);
    }
  }

  lemma PushedProducts(store: Store, revision: Revision, key: ProductKey)
    requires store.revisions != []
    ensures var after, pushed := Push(store, revision), store.revisions + [revision];
      && after.revisions == (if |pushed| <= LIMIT then pushed else pushed[1..])
      && (key in after.products <==>
            key in store.products && (|pushed| > LIMIT ==> key.revision != IdOf(store.revisions[0].version)))
  {
    hide IdOf;
  }

  lemma KeptProduct(store: Store, revision: Revision, key: ProductKey)
    requires Ready(store, revision) && key in store.products
    ensures key in Push(store, revision).products <==> Retains(Push(store, revision).revisions, key.revision)
  {
    var run := store.products[key].run;
    assert store.revisions != [] && RetainsRun(store.revisions, key.revision, run);
    hide Push, Ready, IdOf, Belongs;
    PushedProducts(store, revision, key);
    var after, pushed := Push(store, revision), store.revisions + [revision];
    RetainedAfterPush(store.revisions, revision, key.revision, run, "");
    if Retains(after.revisions, key.revision) && |pushed| > LIMIT {
      var i :| 0 <= i < |after.revisions| && IdOf(after.revisions[i].version) == key.revision;
      assert after.revisions[i] == pushed[i + 1];
      PushedIsNewer(store, revision, i + 1);
      ExpiredApart(pushed, i + 1);
    }
  }

  lemma PushedIsNewer(store: Store, revision: Revision, i: nat)
    requires Ready(store, revision) && 0 < i <= |store.revisions|
    ensures Newer(store.revisions[0].version, (store.revisions + [revision])[i].version)
  {
    hide RunsListed, ProductsRetained, PagesRetained, Newer;
  }

  lemma PushedPages(store: Store, revision: Revision, handle: string)
    requires store.revisions != []
    ensures var after, pushed := Push(store, revision), store.revisions + [revision];
      && after.revisions == (if |pushed| <= LIMIT then pushed else pushed[1..])
      && (handle in after.continuations <==>
            handle in store.continuations && (|pushed| > LIMIT ==> !Belongs(handle, store.revisions[0].version)))
  {
    hide IdOf;
  }

  lemma KeptPage(store: Store, revision: Revision, handle: string)
    requires Ready(store, revision) && handle in store.continuations
    ensures handle in Push(store, revision).continuations <==> RetainsHandle(Push(store, revision).revisions, handle)
  {
    assert store.revisions != [] && RetainsHandle(store.revisions, handle);
    hide Push, Ready, Belongs;
    PushedPages(store, revision, handle);
    var after, pushed := Push(store, revision), store.revisions + [revision];
    RetainedAfterPush(store.revisions, revision, "", "", handle);
    if RetainsHandle(after.revisions, handle) && |pushed| > LIMIT {
      var i :| 0 <= i < |after.revisions| && Belongs(handle, after.revisions[i].version);
      assert after.revisions[i] == pushed[i + 1];
      PushedIsNewer(store, revision, i + 1);
      ExpiredApart(pushed, i + 1);
    }
  }

  /** Pushing drops exactly what belongs to the expired revision: every product, page and run
      of a revision that is still retained stays. */
  lemma PushDropsOnlyExpired(store: Store, revision: Revision)
    requires Ready(store, revision)
    ensures var after := Push(store, revision);
      && (forall key :: key in store.products ==> (key in after.products <==> Retains(after.revisions, key.revision)))
      && (forall handle :: handle in store.continuations ==>
            (handle in after.continuations <==> RetainsHandle(after.revisions, handle)))
      && (forall run :: run in store.runs ==> (run in after.runs <==> run in Listed(after.revisions)))
  {
    PushRuns(store, revision);
    hide Push, Ready, RunsListed, Retains, RetainsHandle;
    var after := Push(store, revision);
    RunsAreListed(after);
    forall key | key in store.products
      ensures key in after.products <==> Retains(after.revisions, key.revision)
    {
      KeptProduct(store, revision, key);
    }
    forall handle | handle in store.continuations
      ensures handle in after.continuations <==> RetainsHandle(after.revisions, handle)
    {
      KeptPage(store, revision, handle);
    }
  }

  lemma RunsAreListed(store: Store)
    requires RunsListed(store)
    ensures forall run :: run in store.runs <==> run in Listed(store.revisions)
  {
  }

  lemma ReadyForNewer(store: Store, moved: Store, revision: Revision)
    requires HistoryBounded(store) && moved.revisions == store.revisions && Newer(store.version, revision.version)
    requires revision.version == moved.version && revision.runs == []
    requires RunsListed(moved) && ProductsRetained(moved) && PagesRetained(moved)
    ensures Ready(moved, revision)
  {
    hide RunsListed, ProductsRetained, PagesRetained;
    LastIsNewest(store);
  }

  lemma UpdatedConsistent(store: Store, updates: seq<Update>)
    requires Consistent(store)
    ensures Consistent(Updated(store, updates).0)
  {
    hide RunsListed, ProductsRetained, PagesRetained;
    if Unknown(store.sources, updates).None? {
      var applied := ApplyTexts(store.sources, store.version.salsa, updates);
      var moved := store.(sources := applied.sources, version := store.version.(salsa := applied.salsa));
      MovedKeeps(store, moved);
      if applied.deltas != [] {
        var batch := "edit-" + Decimal(store.nextEditBatch + 1);
        var started := moved.(nextEditBatch := store.nextEditBatch + 1);
        MovedKeeps(store, started);
        ReadyForNewer(store, started, Revision(moved.version, InputEdit(batch), applied.deltas, []));
        PushConsistent(started, Revision(moved.version, InputEdit(batch), applied.deltas, []));
      }
    }
  }

  lemma MovedKeeps(store: Store, moved: Store)
    requires Consistent(store) && moved.revisions == store.revisions && moved.runs == store.runs
          && moved.nextRun == store.nextRun
    requires moved.products == store.products && moved.continuations == store.continuations
    ensures RunsListed(moved) && ProductsRetained(moved) && PagesRetained(moved)
  {
  }

  lemma {:induction false} ReloadConsistent(store: Store, outcome: Result<Reloaded, string>)
    requires Consistent(store)
    ensures Consistent(Reload(store, outcome).0)
  {
    if outcome.Ok? {
      hide RunsListed, ProductsRetained, PagesRetained, HistoryBounded, Ready, Push, IdOf;
      var version := Version(store.version.generation + 1, outcome.value.salsa);
      var cleared := store.(version := version, sources := outcome.value.sources, continuations := map[]);
      ClearedKeeps(store, cleared);
      ReadyForNewer(store, cleared, Revision(version, WorkspaceReload(IdOf(store.version)), [], []));
      PushConsistent(cleared, Revision(version, WorkspaceReload(IdOf(store.version)), [], []));
    }
  }

  lemma LastIsNewest(store: Store)
    requires HistoryBounded(store)
    ensures forall i :: 0 <= i < |store.revisions| ==>
      store.revisions[i].version == store.version || Newer(store.revisions[i].version, store.version)
  {
  }

  lemma ClearedKeeps(store: Store, cleared: Store)
    requires Consistent(store) && cleared.revisions == store.revisions && cleared.runs == store.runs
          && cleared.nextRun == store.nextRun
    requires cleared.products == store.products && cleared.continuations == map[]
    ensures RunsListed(cleared) && ProductsRetained(cleared) && PagesRetained(cleared)
  {
  }

  lemma StepConsistent(store: Store, call: Call)
    requires Consistent(store)
    ensures HistoryBounded(store) && store.revisions != [] && Consistent(Step(store, call))
    ensures Step(store, call).nextRun >= store.nextRun
  {
    match call
    case RecordCall(request) => RecordConsistent(store, request);
    case InspectCall(symbol, product, generated) => InspectConsistent(store, symbol, product, generated);
    case UpdateCall(updates) => UpdatedConsistent(store, updates);
    case ReloadCall(outcome) => ReloadConsistent(store, outcome);
  }

  /** The store after any sequence of provider calls. */
  ghost function After(start: Store, calls: seq<Call>): (store: Store)
    requires Consistent(start)
    ensures Consistent(store)
    decreases |calls|
  {
    if calls == [] then start
    else
      var before := After(start, calls[..|calls| - 1]);
      StepConsistent(before, calls[|calls| - 1]);
      Step(before, calls[|calls| - 1])
  }

  lemma ProductRunIsKept(store: Store, key: ProductKey)
    requires ProductsRetained(store) && RunsListed(store) && key in store.products
    ensures store.products[key].run in store.runs && Retains(store.revisions, key.revision)
  {
    hide IdOf, Consecutive;
    var run := store.products[key].run;
    var i :| 0 <= i < |store.revisions| && IdOf(store.revisions[i].version) == key.revision
      && run in store.revisions[i].runs;
    ListedHolds(store.revisions, i, run);
  }

  /** Whatever is called, every stored product still has its run and its revision, so a
      comparison of two stored products always has both traces. */
  lemma ComparedRunsAreKept(start: Store, calls: seq<Call>)
    requires Consistent(start)
    ensures var store := After(start, calls);
      forall key :: key in store.products ==>
        store.products[key].run in store.runs && Retains(store.revisions, key.revision)
  {
    hide RunsListed, ProductsRetained, PagesRetained, HistoryBounded, After, Retains;
    var store := After(start, calls);
    forall key | key in store.products
      ensures store.products[key].run in store.runs && Retains(store.revisions, key.revision)
    {
      ProductRunIsKept(store, key);
    }
  }

  lemma {:induction false} ListedHolds(revisions: seq<Revision>, i: nat, run: RunHandle)
    requires i < |revisions| && run in revisions[i].runs
    ensures run in Listed(revisions)
  {
    if i < |revisions| - 1 {
      ListedHolds(revisions[..|revisions| - 1], i, run);
    }
  }

  /** A handle once in use is never handed out again: the next one is new, now and after any further calls. */
  lemma {:induction false} HandlesNeverReused(start: Store, calls: seq<Call>, run: RunHandle)
    requires Consistent(start) && run in start.runs
    ensures After(start, calls).nextRun >= start.nextRun
    ensures run != HandleOf(After(start, calls).nextRun + 1)
    decreases |calls|
  {
    if calls != [] {
      hide Step, Consistent, HandleOf;
      var before := After(start, calls[..|calls| - 1]);
      HandlesNeverReused(start, calls[..|calls| - 1], run);
      StepConsistent(before, calls[|calls| - 1]);
    }
    UsedHandlesAreOld(start, run, After(start, calls).nextRun);
  }

  lemma UsedHandlesAreOld(store: Store, run: RunHandle, later: nat)
    requires Consistent(store) && run in store.runs && later >= store.nextRun
    ensures run != HandleOf(later + 1)
  {
    var listed := Listed(store.revisions);
    var i :| 0 <= i < |listed| && listed[i] == run;
    HandleInjective(store.nextRun - |listed| + 1 + i, later + 1);
  }
}
