/** What every provider call does to the texts, the history and what hangs off it, without the
    functions that compute it. */
module ProviderAccounts {
  import opened Decimals
  import opened Wrappers
  import opened Retention

  // ---------------------------------------------------------------- the texts after an edit

  ghost predicate LastFor(updates: seq<Update>, i: int, path: string) {
    && 0 <= i < |updates| && updates[i].path == path
    && forall j :: i < j < |updates| ==> updates[j].path != path
  }

  ghost predicate Untouched(updates: seq<Update>, path: string) {
    forall i :: 0 <= i < |updates| ==> updates[i].path != path
  }

  /** Every path holds the text of its last update; a path without updates keeps its text. */
  ghost predicate TextsFollow(before: map<string, string>, updates: seq<Update>, after: map<string, string>) {
    && after.Keys == before.Keys
    && (forall path, i :: path in after && LastFor(updates, i, path) ==> after[path] == updates[i].text)
    && (forall path :: path in after && Untouched(updates, path) ==> after[path] == before[path])
  }

  lemma LastForSnoc(front: seq<Update>, last: Update, i: int, path: string)
    ensures LastFor(front + [last], i, path) <==>
      if last.path == path then i == |front| else LastFor(front, i, path)
    ensures Untouched(front + [last], path) <==> Untouched(front, path) && last.path != path
  {
    var all := front + [last];
    assert all[|front|] == last && forall j :: 0 <= j < |front| ==> all[j] == front[j];
  }

  lemma ApplySnoc(sources: map<string, string>, salsa: nat, updates: seq<Update>)
    requires updates != [] && forall i :: 0 <= i < |updates| ==> updates[i].path in sources
    ensures var last := updates[|updates| - 1];
      var front, all := ApplyTexts(sources, salsa, updates[..|updates| - 1]), ApplyTexts(sources, salsa, updates);
      && all.sources.Keys == front.sources.Keys == sources.Keys
      && if front.sources[last.path] == last.text then all.sources == front.sources && all.deltas == front.deltas
         else all.sources == front.sources[last.path := last.text]
              && all.deltas == front.deltas + [InputDelta(last.path, front.sources[last.path], last.text)]
  {
  }

  lemma TextsFollowSnoc(before: map<string, string>, front: seq<Update>, last: Update, middle: map<string, string>,
                        after: map<string, string>)
    requires TextsFollow(before, front, middle) && last.path in middle && after.Keys == middle.Keys
    requires after == middle[last.path := last.text]
    ensures TextsFollow(before, front + [last], after)
  {
    hide LastFor, Untouched;
    forall path, i
      ensures LastFor(front + [last], i, path) <==> if last.path == path then i == |front| else LastFor(front, i, path)
      ensures Untouched(front + [last], path) <==> Untouched(front, path) && last.path != path
    {
      LastForSnoc(front, last, i, path);
    }
    assert (front + [last])[|front|] == last;
    forall path, i | LastFor(front + [last], i, path)
      ensures 0 <= i <= |front|
    {
      LastForIndex(front + [last], i, path);
    }
    forall path, i | path in after && LastFor(front + [last], i, path)
      ensures after[path] == (front + [last])[i].text
    {
      if last.path != path {
        LastForIndex(front, i, path);
      }
    }
    forall path | path in after && Untouched(front + [last], path)
      ensures after[path] == before[path]
    {
      LastForSnoc(front, last, 0, path);
    }
  }

  lemma LastForIndex(updates: seq<Update>, i: int, path: string)
    requires LastFor(updates, i, path)
    ensures 0 <= i < |updates|
  {
  }

  lemma {:induction false} ApplyTextsFollow(sources: map<string, string>, salsa: nat, updates: seq<Update>)
    requires forall i :: 0 <= i < |updates| ==> updates[i].path in sources
    ensures TextsFollow(sources, updates, ApplyTexts(sources, salsa, updates).sources)
  {
    if updates == [] {
      assert ApplyTexts(sources, salsa, updates).sources == sources;
    } else {
      hide ApplyTexts, TextsFollow;
      var front, last := updates[..|updates| - 1], updates[|updates| - 1];
      var middle := ApplyTexts(sources, salsa, front).sources;
      ApplyTextsFollow(sources, salsa, front);
      ApplySnoc(sources, salsa, updates);
      assert updates == front + [last];
      assert ApplyTexts(sources, salsa, updates).sources == middle[last.path := last.text];
      TextsFollowSnoc(sources, front, last, middle, ApplyTexts(sources, salsa, updates).sources);
    }
  }

  // ---------------------------------------------------------------- the deltas of an edit

  /** The texts after writing what some deltas announce. */
  ghost function Replay(sources: map<string, string>, deltas: seq<InputDelta>): map<string, string> {
    if deltas == [] then sources
    else
      var last := deltas[|deltas| - 1];
      Replay(sources, deltas[..|deltas| - 1])[last.path := last.after]
  }

  /** Delta `k` starts from the text there is at that point, and changes it. */
  ghost predicate Fits(sources: map<string, string>, deltas: seq<InputDelta>, k: int) {
    && 0 <= k < |deltas| && deltas[k].path in Replay(sources, deltas[..k])
    && Replay(sources, deltas[..k])[deltas[k].path] == deltas[k].before != deltas[k].after
  }

  ghost predicate DeltasLead(before: map<string, string>, deltas: seq<InputDelta>, after: map<string, string>) {
    Replay(before, deltas) == after && forall k :: 0 <= k < |deltas| ==> Fits(before, deltas, k)
  }

  lemma FitsSnoc(sources: map<string, string>, front: seq<InputDelta>, last: InputDelta, k: int)
    requires 0 <= k < |front|
    ensures Fits(sources, front + [last], k) <==> Fits(sources, front, k)
  {
    var all := front + [last];
    assert all[..k] == front[..k] && all[k] == front[k];
  }

  lemma DeltasLeadSnoc(before: map<string, string>, front: seq<InputDelta>, last: InputDelta,
                       middle: map<string, string>)
    requires DeltasLead(before, front, middle)
    requires last.path in middle && middle[last.path] == last.before != last.after
    ensures DeltasLead(before, front + [last], middle[last.path := last.after])
  {
    var all := front + [last];
    assert all[..|front|] == front && all[|front|] == last;
    forall k | 0 <= k < |all|
      ensures Fits(before, all, k)
    {
      if k < |front| {
        FitsSnoc(before, front, last, k);
      }
    }
  }

  lemma {:induction false} ApplyTextsLead(sources: map<string, string>, salsa: nat, updates: seq<Update>)
    requires forall i :: 0 <= i < |updates| ==> updates[i].path in sources
    ensures var applied := ApplyTexts(sources, salsa, updates);
      DeltasLead(sources, applied.deltas, applied.sources)
  {
    if updates == [] {
      assert ApplyTexts(sources, salsa, updates) == Applied(sources, salsa, []);
    } else {
      hide ApplyTexts, DeltasLead;
      var front, last := updates[..|updates| - 1], updates[|updates| - 1];
      ApplyTextsLead(sources, salsa, front);
      ApplySnoc(sources, salsa, updates);
      var middle := ApplyTexts(sources, salsa, front);
      if middle.sources[last.path] != last.text {
        DeltasLeadSnoc(sources, middle.deltas, InputDelta(last.path, middle.sources[last.path], last.text),
                       middle.sources);
      }
    }
  }

  /** `ix` names the updates the deltas come from: those, and only those, that change the text they find. */
  ghost predicate ComeFrom(sources: map<string, string>, updates: seq<Update>, deltas: seq<InputDelta>, ix: seq<nat>) {
    && |ix| == |deltas|
    && (forall k, l :: 0 <= k < l < |ix| ==> ix[k] < ix[l])
    && (forall k :: 0 <= k < |ix| ==>
          ix[k] < |updates| && deltas[k].path == updates[ix[k]].path && deltas[k].after == updates[ix[k]].text)
    && (forall i :: 0 <= i < |updates| ==> (i in ix <==> Changes(sources, updates, i)))
  }

  /** The last update of the path before `i`, or the old text if there is none, differs from update `i`. */
  ghost predicate Changes(sources: map<string, string>, updates: seq<Update>, i: int) {
    && 0 <= i < |updates| && updates[i].path in sources
    && (Untouched(updates[..i], updates[i].path) ==> sources[updates[i].path] != updates[i].text)
    && (forall j :: LastFor(updates[..i], j, updates[i].path) ==> updates[j].text != updates[i].text)
  }

  lemma {:induction false} LastExists(updates: seq<Update>, path: string) returns (i: int)
    requires !Untouched(updates, path)
    ensures LastFor(updates, i, path)
  {
    var n := |updates| - 1;
    if updates[n].path == path {
      i := n;
    } else {
      i := LastExists(updates[..n], path);
    }
  }

  lemma ChangesSnoc(sources: map<string, string>, front: seq<Update>, last: Update, i: int)
    requires 0 <= i < |front|
    ensures Changes(sources, front + [last], i) <==> Changes(sources, front, i)
  {
    var all := front + [last];
    assert all[..i] == front[..i] && all[i] == front[i];
    assert forall j :: 0 <= j < i ==> all[j] == front[j];
  }

  lemma LastChanges(sources: map<string, string>, front: seq<Update>, last: Update, text: map<string, string>)
    requires TextsFollow(sources, front, text) && last.path in sources
    ensures Changes(sources, front + [last], |front|) <==> text[last.path] != last.text
  {
    var all := front + [last];
    assert all[..|front|] == front && all[|front|] == last;
    assert forall j :: 0 <= j < |front| ==> all[j] == front[j];
    if !Untouched(front, last.path) {
      var j := LastExists(front, last.path);
    }
  }

  lemma AllChangesSnoc(sources: map<string, string>, front: seq<Update>, last: Update)
    ensures forall i :: 0 <= i < |front| ==> (Changes(sources, front + [last], i) <==> Changes(sources, front, i))
  {
    hide Changes;
    forall i | 0 <= i < |front|
      ensures Changes(sources, front + [last], i) <==> Changes(sources, front, i)
    {
      ChangesSnoc(sources, front, last, i);
    }
  }

  lemma ComeFromStays(sources: map<string, string>, front: seq<Update>, last: Update, deltas: seq<InputDelta>,
                      ix: seq<nat>)
    requires ComeFrom(sources, front, deltas, ix) && !Changes(sources, front + [last], |front|)
    ensures ComeFrom(sources, front + [last], deltas, ix)
  {
    hide Changes;
    AllChangesSnoc(sources, front, last);
    var all := front + [last];
    assert forall j :: 0 <= j < |front| ==> all[j] == front[j];
  }

  lemma ComeFromGrows(sources: map<string, string>, front: seq<Update>, last: Update, deltas: seq<InputDelta>,
                      ix: seq<nat>, delta: InputDelta)
    requires ComeFrom(sources, front, deltas, ix) && Changes(sources, front + [last], |front|)
    requires delta.path == last.path && delta.after == last.text
    ensures ComeFrom(sources, front + [last], deltas + [delta], ix + [|front|])
  {
    hide Changes;
    AllChangesSnoc(sources, front, last);
    var all, longer := front + [last], ix + [|front|];
    assert forall j :: 0 <= j < |front| ==> all[j] == front[j];
    assert forall i :: i in longer <==> i in ix || i == |front|;
  }

  /** The deltas are those of the updates that change the text they find, in order. */
  lemma {:induction false} DeltasComeFrom(sources: map<string, string>, salsa: nat, updates: seq<Update>)
    returns (ix: seq<nat>)
    requires forall i :: 0 <= i < |updates| ==> updates[i].path in sources
    ensures ComeFrom(sources, updates, ApplyTexts(sources, salsa, updates).deltas, ix)
  {
    ix := [];
    if updates == [] {
      assert ApplyTexts(sources, salsa, updates).deltas == [];
    } else {
      var n := |updates| - 1;
      var front, last := updates[..n], updates[n];
      ix := DeltasComeFrom(sources, salsa, front);
      ApplyTextsFollow(sources, salsa, front);
      ApplySnoc(sources, salsa, updates);
      var middle := ApplyTexts(sources, salsa, front);
      LastChanges(sources, front, last, middle.sources);
      assert updates == front + [last];
      hide ComeFrom, Changes, ApplyTexts;
      if middle.sources[last.path] != last.text {
        var delta := InputDelta(last.path, middle.sources[last.path], last.text);
        ComeFromGrows(sources, front, last, middle.deltas, ix, delta);
        ix := ix + [n];
      } else {
        ComeFromStays(sources, front, last, middle.deltas, ix);
      }
    }
  }

  // ---------------------------------------------------------------- the history after a push

  ghost predicate SameOn<K, V>(before: map<K, V>, after: map<K, V>) {
    forall k :: k in after ==> k in before && after[k] == before[k]
  }

  /** The newest `LIMIT` revisions are kept, `revision` last, and of what hangs off the history
      exactly what belongs to a kept revision, unchanged. */
  ghost predicate HistoryAdvances(before: Store, revision: Revision, after: Store) {
    var all := before.revisions + [revision];
    && after.revisions == (if |all| <= LIMIT then all else all[|all| - LIMIT..])
    && SameOn(before.runs, after.runs) && SameOn(before.products, after.products)
    && SameOn(before.continuations, after.continuations)
    && (forall run :: run in before.runs ==> (run in after.runs <==> run in Listed(after.revisions)))
    && (forall key :: key in before.products ==> (key in after.products <==> Retains(after.revisions, key.revision)))
    && (forall handle :: handle in before.continuations ==>
          (handle in after.continuations <==> RetainsHandle(after.revisions, handle)))
    && after.nextRun == before.nextRun && after.nextContinuation == before.nextContinuation
  }

  lemma PushIs(store: Store, revision: Revision)
    requires |store.revisions| <= LIMIT
    ensures var after, all := Push(store, revision), store.revisions + [revision];
      && after.revisions == (if |all| <= LIMIT then all else all[|all| - LIMIT..])
      && SameOn(store.runs, after.runs) && SameOn(store.products, after.products)
      && SameOn(store.continuations, after.continuations)
      && after.nextRun == store.nextRun && after.nextContinuation == store.nextContinuation
      && after.sources == store.sources && after.version == store.version
      && after.nextEditBatch == store.nextEditBatch
  {
    hide IdOf;
  }

  lemma PushAdvances(store: Store, revision: Revision)
    requires Ready(store, revision)
    ensures HistoryAdvances(store, revision, Push(store, revision))
  {
    hide Push, IdOf, Listed, Retains, RetainsHandle, RunsListed, ProductsRetained, PagesRetained, SameOn;
    PushDropsOnlyExpired(store, revision);
    PushIs(store, revision);
  }

  // ---------------------------------------------------------------- edits and reloads

  ghost predicate KnownUpdates(sources: map<string, string>, updates: seq<Update>) {
    forall i :: 0 <= i < |updates| ==> updates[i].path in sources
  }

  ghost predicate FirstUnknown(sources: map<string, string>, updates: seq<Update>, i: int) {
    0 <= i < |updates| && updates[i].path !in sources && KnownUpdates(sources, updates[..i])
  }

  /** An edit that changed something: one new revision announces it. */
  ghost predicate Edited(before: Store, updates: seq<Update>, after: Store) {
    && after.revisions != []
    && var newest := after.revisions[|after.revisions| - 1];
       && newest == Revision(after.version, InputEdit("edit-" + Decimal(before.nextEditBatch + 1)), newest.deltas, [])
       && newest.deltas != [] && DeltasLead(before.sources, newest.deltas, after.sources)
       && (exists ix :: ComeFrom(before.sources, updates, newest.deltas, ix))
       && after.version == Version(before.version.generation, before.version.salsa + |newest.deltas|)
       && after.nextEditBatch == before.nextEditBatch + 1
       && HistoryAdvances(before, newest, after)
  }

  /** What an edit may answer, and what it leaves. */
  ghost predicate EditAccount(before: Store, updates: seq<Update>, after: Store, result: Result<string, ApiError>) {
    match result
    case Ok(id) =>
      KnownUpdates(before.sources, updates) && id == IdOf(after.version)
      && TextsFollow(before.sources, updates, after.sources) && Edited(before, updates, after)
    case Err(Unrepresented(path)) =>
      after == before && exists i :: FirstUnknown(before.sources, updates, i) && updates[i].path == path
    case Err(NoInputChanges) =>
      after == before && KnownUpdates(before.sources, updates)
      && forall i :: 0 <= i < |updates| ==> before.sources[updates[i].path] == updates[i].text
    case Err(_) => false
  }

  lemma FirstUnknownLater(sources: map<string, string>, updates: seq<Update>, i: int)
    requires updates != [] && updates[0].path in sources && FirstUnknown(sources, updates[1..], i)
    ensures FirstUnknown(sources, updates, i + 1)
  {
    forall j | 0 <= j < i + 1
      ensures updates[j].path in sources
    {
      if j > 0 {
        assert updates[1..][..i][j - 1] == updates[j];
      }
    }
  }

  lemma {:induction false} UnknownIsFirst(sources: map<string, string>, updates: seq<Update>) returns (i: int)
    requires Unknown(sources, updates).Some?
    ensures FirstUnknown(sources, updates, i) && updates[i].path == Unknown(sources, updates).value
  {
    if updates[0].path !in sources {
      i := 0;
    } else {
      i := UnknownIsFirst(sources, updates[1..]);
      FirstUnknownLater(sources, updates, i);
      i := i + 1;
    }
  }

  /** An edit announces nothing exactly when every update repeats the text there is. */
  lemma {:induction false} NothingChangesIff(sources: map<string, string>, salsa: nat, updates: seq<Update>)
    requires KnownUpdates(sources, updates)
    ensures ApplyTexts(sources, salsa, updates).deltas == []
       <==> forall i :: 0 <= i < |updates| ==> sources[updates[i].path] == updates[i].text
    ensures ApplyTexts(sources, salsa, updates).deltas == [] ==> ApplyTexts(sources, salsa, updates).sources == sources
  {
    if updates != [] {
      NothingChangesIff(sources, salsa, updates[..|updates| - 1]);
      ApplySnoc(sources, salsa, updates);
      assert updates == updates[..|updates| - 1] + [updates[|updates| - 1]];
    }
  }

  /** The store an edit pushes its revision to. */
  function Started(store: Store, applied: Applied): Store {
    store.(sources := applied.sources, version := store.version.(salsa := applied.salsa),
           nextEditBatch := store.nextEditBatch + 1)
  }

  function Announced(store: Store, applied: Applied): Revision {
    Revision(store.version.(salsa := applied.salsa), InputEdit("edit-" + Decimal(store.nextEditBatch + 1)),
             applied.deltas, [])
  }

  lemma UpdatedIs(store: Store, updates: seq<Update>, applied: Applied)
    requires KnownUpdates(store.sources, updates)
    requires applied == ApplyTexts(store.sources, store.version.salsa, updates)
    ensures applied.deltas == [] && applied.sources == store.sources ==>
      Updated(store, updates) == (store, Err(NoInputChanges))
    ensures applied.deltas != [] ==>
      Updated(store, updates) ==
        (Push(Started(store, applied), Announced(store, applied)), Ok(IdOf(store.version.(salsa := applied.salsa))))
  {
    hide Push, IdOf, ApplyTexts;
    assert Unknown(store.sources, updates).None?;
  }

  lemma StartedIsReady(store: Store, applied: Applied)
    requires Consistent(store) && applied.salsa > store.version.salsa
    ensures Ready(Started(store, applied), Announced(store, applied))
  {
    hide RunsListed, ProductsRetained, PagesRetained;
    MovedKeeps(store, Started(store, applied));
    ReadyForNewer(store, Started(store, applied), Announced(store, applied));
  }

  lemma EditedAfterPush(store: Store, updates: seq<Update>, applied: Applied)
    requires Consistent(store) && KnownUpdates(store.sources, updates)
    requires applied == ApplyTexts(store.sources, store.version.salsa, updates) && applied.deltas != []
    ensures var after := Push(Started(store, applied), Announced(store, applied));
      Edited(store, updates, after) && after.sources == applied.sources
      && after.version == store.version.(salsa := applied.salsa)
  {
    hide ApplyTexts, Consistent, Ready, Push, DeltasLead, ComeFrom, Listed, Retains, RetainsHandle, SameOn;
    var started, newest := Started(store, applied), Announced(store, applied);
    StartedIsReady(store, applied);
    PushAdvances(started, newest);
    assert |started.revisions| <= LIMIT by {
      ReadyIsBounded(started, newest);
    }
    PushIs(started, newest);
    var ix := DeltasComeFrom(store.sources, store.version.salsa, updates);
    ApplyTextsLead(store.sources, store.version.salsa, updates);
    var after := Push(started, newest);
    assert after.revisions[|after.revisions| - 1] == newest;
    assert HistoryAdvances(store, newest, after);
  }

  lemma ReadyIsBounded(store: Store, revision: Revision)
    requires Ready(store, revision)
    ensures |store.revisions| <= LIMIT
  {
  }

  /** Whatever is submitted: known edits are made and announced exactly, everything else changes nothing. */
  lemma UpdatedAccounts(store: Store, updates: seq<Update>)
    requires Consistent(store)
    ensures EditAccount(store, updates, Updated(store, updates).0, Updated(store, updates).1)
  {
    hide Consistent, ApplyTexts, Edited, Push, IdOf, TextsFollow, FirstUnknown;
    if Unknown(store.sources, updates).Some? {
      var i := UnknownIsFirst(store.sources, updates);
    } else {
      var applied := ApplyTexts(store.sources, store.version.salsa, updates);
      NothingChangesIff(store.sources, store.version.salsa, updates);
      ApplyTextsFollow(store.sources, store.version.salsa, updates);
      UpdatedIs(store, updates, applied);
      if applied.deltas != [] {
        EditedAfterPush(store, updates, applied);
      }
    }
  }

  /** Every update of a path says the same. */
  predicate OneTextEach(updates: seq<Update>) {
    forall i, j :: 0 <= i < |updates| && 0 <= j < |updates| && updates[i].path == updates[j].path ==>
      updates[i].text == updates[j].text
  }

  lemma RepeatsFinalText(before: map<string, string>, updates: seq<Update>, after: map<string, string>)
    requires KnownUpdates(before, updates) && TextsFollow(before, updates, after)
    ensures (forall i :: 0 <= i < |updates| ==> after[updates[i].path] == updates[i].text) <==> OneTextEach(updates)
  {
    forall i | 0 <= i < |updates|
      ensures exists j :: LastFor(updates, j, updates[i].path)
    {
      var j := LastExists(updates, updates[i].path);
    }
  }

  /** Submitting the same edit again changes nothing and answers so, exactly when no path is given two
      texts; in particular when every path has one update. */
  lemma ResubmittedChangesNothingIff(store: Store, updates: seq<Update>)
    requires Consistent(store) && KnownUpdates(store.sources, updates)
    ensures var once := Updated(store, updates).0;
      Updated(once, updates) == (once, Err(NoInputChanges)) <==> OneTextEach(updates)
  {
    hide ApplyTexts, Edited, Push, IdOf, TextsFollow, OneTextEach;
    hide RunsListed, ProductsRetained, PagesRetained, HistoryBounded;
    var once := Updated(store, updates).0;
    UpdatedAccounts(store, updates);
    ApplyTextsFollow(store.sources, store.version.salsa, updates);
    var applied := ApplyTexts(store.sources, store.version.salsa, updates);
    NothingChangesIff(store.sources, store.version.salsa, updates);
    UpdatedIs(store, updates, applied);
    assert TextsFollow(store.sources, updates, once.sources);
    assert once.sources.Keys == store.sources.Keys by {
      SamePaths(store.sources, updates, once.sources);
    }
    RepeatsFinalText(store.sources, updates, once.sources);
    NothingChangesIff(once.sources, once.version.salsa, updates);
    UpdatedIs(once, updates, ApplyTexts(once.sources, once.version.salsa, updates));
  }

  lemma SamePaths(before: map<string, string>, updates: seq<Update>, after: map<string, string>)
    requires TextsFollow(before, updates, after)
    ensures after.Keys == before.Keys
  {
  }

  // ---------------------------------------------------------------- reloads, runs and products

  /** A rebuilt host starts a new generation with its own texts and no continuation pages. */
  ghost predicate ReloadAccount(before: Store, outcome: Result<Reloaded, string>, after: Store,
                                result: Result<string, ApiError>) {
    match outcome
    case Err(message) => after == before && result == Err(ReloadFailed(message))
    case Ok(host) =>
      && after.version == Version(before.version.generation + 1, host.salsa) && after.sources == host.sources
      && after.continuations == map[] && after.nextEditBatch == before.nextEditBatch
      && HistoryAdvances(before.(continuations := map[]),
                         Revision(after.version, WorkspaceReload(IdOf(before.version)), [], []), after)
      && result == Ok(IdOf(after.version))
  }

  /** The store a reload pushes its revision to. */
  function Cleared(store: Store, host: Reloaded): Store {
    store.(version := Version(store.version.generation + 1, host.salsa), sources := host.sources,
           continuations := map[])
  }

  function ReloadRevision(store: Store, host: Reloaded): Revision {
    Revision(Version(store.version.generation + 1, host.salsa), WorkspaceReload(IdOf(store.version)), [], [])
  }

  lemma ReloadIs(store: Store, host: Reloaded)
    ensures Reload(store, Ok(host)) ==
      (Push(Cleared(store, host), ReloadRevision(store, host)),
       Ok(IdOf(Version(store.version.generation + 1, host.salsa))))
  {
    hide Push, IdOf;
  }

  lemma ClearedIsReady(store: Store, host: Reloaded)
    requires Consistent(store)
    ensures Ready(Cleared(store, host), ReloadRevision(store, host))
  {
    hide RunsListed, ProductsRetained, PagesRetained, IdOf;
    ClearedKeeps(store, Cleared(store, host));
    ReadyForNewer(store, Cleared(store, host), ReloadRevision(store, host));
  }

  lemma ReloadAccounts(store: Store, outcome: Result<Reloaded, string>)
    requires Consistent(store)
    ensures ReloadAccount(store, outcome, Reload(store, outcome).0, Reload(store, outcome).1)
  {
    hide Consistent, Ready, Listed, Retains, RetainsHandle, SameOn, IdOf, Push;
    if outcome.Ok? {
      hide Reload;
      var cleared, revision := Cleared(store, outcome.value), ReloadRevision(store, outcome.value);
      ReloadIs(store, outcome.value);
      ClearedIsReady(store, outcome.value);
      PushAdvances(cleared, revision);
      ReadyIsBounded(cleared, revision);
      PushIs(cleared, revision);
      NothingStays(cleared.continuations, Push(cleared, revision).continuations);
    }
  }

  lemma NothingStays<K, V>(before: map<K, V>, after: map<K, V>)
    requires SameOn(before, after) && before == map[]
    ensures after == map[]
  {
    assert after.Keys == {};
  }

  /** One run more, under a handle not in use, listed by the newest revision. */
  ghost predicate RecordAccount(before: Store, request: string, after: Store, run: RunHandle) {
    var n := |before.revisions| - 1;
    && n >= 0 && run == HandleOf(before.nextRun + 1) && run !in before.runs && after.nextRun == before.nextRun + 1
    && (forall other :: other in after.runs <==> other in before.runs || other == run)
    && (forall other :: other in before.runs ==> after.runs[other] == before.runs[other])
    && run in after.runs && after.runs[run].runId == run && after.runs[run].request == request
    && |after.revisions| == n + 1 && after.revisions[..n] == before.revisions[..n]
    && after.revisions[n].runs == before.revisions[n].runs + [run]
    && after.revisions[n].version == before.revisions[n].version
    && after.revisions[n].cause == before.revisions[n].cause
    && after.revisions[n].deltas == before.revisions[n].deltas
    && after.version == before.version && after.sources == before.sources && after.products == before.products
    && after.continuations == before.continuations && after.nextEditBatch == before.nextEditBatch
    && after.nextContinuation == before.nextContinuation
  }

  lemma RecordAccounts(store: Store, request: string)
    requires Consistent(store)
    ensures HistoryBounded(store) && store.revisions != []
    ensures RecordAccount(store, request, Record(store, request), HandleOf(store.nextRun + 1))
  {
    hide HandleOf, IdOf;
    if HandleOf(store.nextRun + 1) in store.runs {
      UsedHandlesAreOld(store, HandleOf(store.nextRun + 1), store.nextRun);
    }
  }

  /** `pages` under `prefix`, added to what there was. */
  ghost predicate PagesJoin(before: map<string, Page>, prefix: string, pages: map<string, Page>,
                            after: map<string, Page>) {
    && (forall suffix :: suffix in pages ==> prefix + suffix in after && after[prefix + suffix] == pages[suffix])
    && (forall handle :: handle in after ==>
          || (prefix <= handle && handle[|prefix|..] in pages)
          || (handle in before && after[handle] == before[handle]))
    && (forall handle :: handle in before ==> handle in after)
  }

  lemma RenamedJoins(before: map<string, Page>, prefix: string, pages: map<string, Page>)
    ensures PagesJoin(before, prefix, pages, before + Renamed(prefix, pages))
  {
    forall suffix | suffix in pages
      ensures prefix + suffix in Renamed(prefix, pages) && Renamed(prefix, pages)[prefix + suffix] == pages[suffix]
    {
      assert (prefix + suffix)[|prefix|..] == suffix;
    }
  }

  /** An inspected product is kept under the current revision with its frozen form, the run that
      computed it and its continuation pages; an unlisted one leaves only a used number. */
  ghost predicate InspectAccount(before: Store, symbol: string, product: string, generated: Option<Generated>,
                                 after: Store, result: Result<RunHandle, ApiError>) {
    && after.nextContinuation == before.nextContinuation + 1
    && match generated
       case None => result == Err(ProductNotFound) && after == before.(nextContinuation := after.nextContinuation)
       case Some(value) =>
         && result.Ok?
         && RecordAccount(before.(nextContinuation := after.nextContinuation), symbol,
                          after.(products := before.products, continuations := before.continuations), result.value)
         && PagesJoin(before.continuations,
                      IdOf(before.version) + "_product_" + Decimal(before.nextContinuation + 1), value.pages,
                      after.continuations)
         && var key := ProductKey(IdOf(before.version), symbol, product);
            && (forall other :: other in after.products <==> other in before.products || other == key)
            && (forall other :: other in before.products && other != key ==>
                  after.products[other] == before.products[other])
            && key in after.products && after.products[key].frozen == value.frozen
            && after.products[key].run == result.value
  }

  lemma InspectIs(store: Store, symbol: string, product: string, value: Generated)
    requires store.revisions != []
    ensures var counted := store.(nextContinuation := store.nextContinuation + 1);
      var run := HandleOf(store.nextRun + 1);
      Inspect(store, symbol, product, Some(value)) ==
        (Record(counted, symbol).(
           continuations := store.continuations + Renamed(ProductPrefix(counted), value.pages),
           products := store.products[ProductKey(IdOf(store.version), symbol, product)
                                        := RetainedProduct(value.frozen, run)]),
         Ok(run))
  {
    hide HandleOf, IdOf, Renamed, ProductPrefix;
  }

  lemma InspectAccounts(store: Store, symbol: string, product: string, generated: Option<Generated>)
    requires Consistent(store)
    ensures HistoryBounded(store) && store.revisions != []
    ensures var (after, result) := Inspect(store, symbol, product, generated);
      InspectAccount(store, symbol, product, generated, after, result)
  {
    ConsistentHistory(store);
    HistoryIsNotEmpty(store);
    if generated.Some? {
      hide *;
      InspectSomeAccounts(store, symbol, product, generated.value);
    }
  }

  lemma InspectSomeAccounts(store: Store, symbol: string, product: string, value: Generated)
    requires Consistent(store) && store.revisions != []
    ensures var (after, result) := Inspect(store, symbol, product, Some(value));
      InspectAccount(store, symbol, product, Some(value), after, result)
  {
    hide HandleOf, IdOf, Renamed, Consistent, RecordAccount, PagesJoin, Inspect, Record;
    var counted := store.(nextContinuation := store.nextContinuation + 1);
    CountingKeeps(store);
    RecordAccounts(counted, symbol);
    RenamedJoins(store.continuations, ProductPrefix(counted), value.pages);
    InspectIs(store, symbol, product, value);
    assert Record(counted, symbol).products == store.products
        && Record(counted, symbol).continuations == store.continuations
        && Record(counted, symbol).nextContinuation == counted.nextContinuation by {
      RecordLeaves(counted, symbol);
    }
  }

  lemma RecordLeaves(store: Store, request: string)
    requires store.revisions != []
    ensures var after := Record(store, request);
      after.products == store.products && after.continuations == store.continuations
      && after.nextContinuation == store.nextContinuation
  {
    hide HandleOf;
  }

  lemma ConsistentHistory(store: Store)
    requires Consistent(store)
    ensures HistoryBounded(store)
  {
  }
}
