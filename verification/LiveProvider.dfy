/** The live provider: an object whose calls update the texts, the history and the maps in place. */
module LiveProvider {
  import opened Decimals
  import opened Wrappers
  import opened Retention
  import opened ProviderAccounts

  class Provider {
    var version: Version
    var sources: map<string, string>
    var nextEditBatch: nat
    var nextRun: nat
    var nextContinuation: nat
    var runs: map<RunHandle, RunObservation>
    var continuations: map<string, Page>
    var revisions: seq<Revision>
    var products: map<ProductKey, RetainedProduct>

    ghost function View(): Store
      reads this
    {
      Store(version, sources, nextEditBatch, nextRun, nextContinuation, runs, continuations, revisions, products)
    }

    constructor (salsa: nat, sources: map<string, string>)
      ensures View() == Opened(Version(0, salsa), sources) && Consistent(View())
      ensures version == Version(0, salsa) && this.sources == sources
      ensures revisions == [Revision(Version(0, salsa), Initial, [], [])]
      ensures runs == map[] && continuations == map[] && products == map[]
      ensures nextEditBatch == nextRun == nextContinuation == 0
    {
      version, this.sources := Version(0, salsa), sources;
      nextEditBatch, nextRun, nextContinuation := 0, 0, 0;
      runs, continuations, products := map[], map[], map[];
      revisions := [Revision(Version(0, salsa), Initial, [], [])];
      new;
      OpenedConsistent(Version(0, salsa), sources);
    }

    method PushRevision(revision: Revision)
      modifies this`runs, this`continuations, this`revisions, this`products
      ensures View() == Push(old(View()), revision)
    {
      revisions := revisions + [revision];
      if |revisions| <= LIMIT {
        return;
      }
      var expired := revisions[0];
      revisions := revisions[1..];
      ghost var before := runs;
      for i := 0 to |expired.runs|
        modifies this`runs
        invariant runs == map run | run in before && run !in expired.runs[..i] :: before[run]
      {
        runs := runs - {expired.runs[i]};
        assert expired.runs[..i + 1] == expired.runs[..i] + [expired.runs[i]];
      }
      assert expired.runs[..|expired.runs|] == expired.runs;
      products := map key | key in products && key.revision != IdOf(expired.version) :: products[key];
      var prefix := IdOf(expired.version) + "_";
      continuations := map handle | handle in continuations && !(prefix <= handle) :: continuations[handle];
    }

    method RecordRun(request: string) returns (run: RunHandle)
      requires Consistent(View())
      modifies this`runs, this`revisions, this`nextRun
      ensures nextRun == old(nextRun) + 1 && run == HandleOf(nextRun) && run !in old(runs)
      ensures View() == Record(old(View()), request) && Consistent(View())
      ensures RecordAccount(old(View()), request, View(), run)
    {
      RecordAccounts(View(), request);
      RecordConsistent(View(), request);
      if HandleOf(nextRun + 1) in runs {
        UsedHandlesAreOld(View(), HandleOf(nextRun + 1), nextRun);
      }
      nextRun := nextRun + 1;
      run := HandleOf(nextRun);
      runs := runs[run := RunObservation(run, request)];
      var n := |revisions| - 1;
      revisions := revisions[n := revisions[n].(runs := revisions[n].runs + [run])];
    }

    method Product(symbol: string, product: string,
                   generated: Option<Generated>) returns (result: Result<RunHandle, ApiError>)
      requires Consistent(View())
      modifies this
      ensures (View(), result) == Inspect(old(View()), symbol, product, generated) && Consistent(View())
      ensures InspectAccount(old(View()), symbol, product, generated, View(), result)
    {
      hide HandleOf, IdOf, Record, Renamed, HistoryBounded, RunsListed, ProductsRetained, PagesRetained, RecordAccount,
        InspectAccount;
      InspectAccounts(View(), symbol, product, generated);
      HistoryIsNotEmpty(View());
      InspectConsistent(View(), symbol, product, generated);
      CountingKeeps(View());
      nextContinuation := nextContinuation + 1;
      ghost var counted := View();
      assert counted == old(View()).(nextContinuation := old(nextContinuation) + 1);
      var prefix := IdOf(version) + "_product_" + Decimal(nextContinuation);
      if generated.None? {
        return Err(ProductNotFound);
      }
      PagesAdded(View(), generated.value.pages);
      continuations := continuations + Renamed(prefix, generated.value.pages);
      ghost var extended := View();
      assert extended
          == counted.(continuations := counted.continuations + Renamed(ProductPrefix(counted), generated.value.pages));
      var run := RecordRun(symbol);
      ghost var recorded := View();
      assert recorded == Record(extended, symbol);
      products := products[ProductKey(IdOf(version), symbol, product) := RetainedProduct(generated.value.frozen, run)];
      assert View() == recorded.(products := products);
      result := Ok(run);
    }

    method ApplyTextUpdates(updates: seq<Update>) returns (deltas: seq<InputDelta>)
      requires forall i :: 0 <= i < |updates| ==> updates[i].path in sources
      modifies this`sources, this`version
      ensures TextsFollow(old(sources), updates, sources) && DeltasLead(old(sources), deltas, sources)
      ensures ApplyTexts(old(sources), old(version.salsa), updates) == Applied(sources, version.salsa, deltas)
      ensures version.generation == old(version.generation)
    {
      deltas := [];
      for i := 0 to |updates|
        invariant version.generation == old(version.generation) && sources.Keys == old(sources.Keys)
        invariant ApplyTexts(old(sources), old(version.salsa), updates[..i]) == Applied(sources, version.salsa, deltas)
      {
        assert updates[..i + 1][..i] == updates[..i];
        var update := updates[i];
        var before := sources[update.path];
        if before != update.text {
          sources := sources[update.path := update.text];
          version := version.(salsa := version.salsa + 1);
          deltas := deltas + [InputDelta(update.path, before, update.text)];
        }
      }
      assert updates[..|updates|] == updates;
      ApplyTextsFollow(old(sources), old(version.salsa), updates);
      ApplyTextsLead(old(sources), old(version.salsa), updates);
    }

    method ApplyUpdates(updates: seq<Update>) returns (result: Result<string, ApiError>)
      requires Consistent(View())
      modifies this
      ensures (View(), result) == Updated(old(View()), updates) && Consistent(View())
      ensures EditAccount(old(View()), updates, View(), result)
    {
      hide Consistent, IdOf, Push, ApplyTexts, EditAccount;
      UpdatedAccounts(View(), updates);
      UpdatedConsistent(View(), updates);
      var unknown := Unknown(sources, updates);
      if unknown.Some? {
        return Err(Unrepresented(unknown.value));
      }
      var deltas := ApplyTextUpdates(updates);
      if deltas == [] {
        return Err(NoInputChanges);
      }
      nextEditBatch := nextEditBatch + 1;
      PushRevision(Revision(version, InputEdit("edit-" + Decimal(nextEditBatch)), deltas, []));
      result := Ok(IdOf(version));
    }

    method ReloadWorkspace(outcome: Result<Reloaded, string>) returns (result: Result<string, ApiError>)
      requires Consistent(View())
      modifies this
      ensures (View(), result) == Reload(old(View()), outcome) && Consistent(View())
      ensures ReloadAccount(old(View()), outcome, View(), result)
    {
      hide Consistent, IdOf, Push, ReloadAccount;
      ReloadAccounts(View(), outcome);
      ReloadConsistent(View(), outcome);
      var previous := IdOf(version);
      if outcome.Err? {
        return Err(ReloadFailed(outcome.error));
      }
      version := Version(version.generation + 1, outcome.value.salsa);
      sources := outcome.value.sources;
      continuations := map[];
      PushRevision(Revision(version, WorkspaceReload(previous), [], []));
      result := Ok(IdOf(version));
    }
  }
}
