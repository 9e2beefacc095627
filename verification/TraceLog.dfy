/** The inspection log: an online run-length coding of repeated cache hits. */
module TraceLog {
  import opened QueryOutcomes

  datatype InspectionSource = SageSource | SolverSource

  datatype ChildOrder = Sequential | Unordered

  datatype InspectionEvent =
    | PhaseEnter(phase: string)
    | PhaseExit(phase: string)
    | SpanEnter(operation: string, source: InspectionSource, childOrder: ChildOrder)
    | SpanExit(operation: string)
    | QueryEnter(key: string)
    | QueryExit(key: string, disposition: Disposition)
    | QueryLeaf(key: string, disposition: Disposition, observations: nat)
    | ExternalMetadata(operation: string)

  type Log = seq<InspectionEvent>

  // ---------------------------------------------------------------- recording

  predicate EndsWithEnter(log: Log, key: string) {
    log != [] && log[|log| - 1] == QueryEnter(key)
  }

  predicate AfterLeaf(log: Log, key: string, disposition: Disposition) {
    |log| >= 2 && log[|log| - 2].QueryLeaf? && log[|log| - 2].key == key && log[|log| - 2].disposition == disposition
  }

  predicate AfterPair(log: Log, key: string, disposition: Disposition) {
    |log| >= 3 && log[|log| - 3] == QueryEnter(key) && log[|log| - 2] == QueryExit(key, disposition)
  }

  /** A finished request that did nothing extends the leaf, or the pair, just before it. */
  function AfterDidRequest(log: Log, key: string, disposition: Disposition): Log {
    if EndsWithEnter(log, key) && AfterLeaf(log, key, disposition) then
      log[..|log| - 2] + [QueryLeaf(key, disposition, log[|log| - 2].observations + 1)]
    else if EndsWithEnter(log, key) && AfterPair(log, key, disposition) then
      log[..|log| - 3] + [QueryLeaf(key, disposition, 2)]
    else
      log + [QueryExit(key, disposition)]
  }

  function Recorded(log: Log, event: InspectionEvent): Log {
    if event.QueryExit? then AfterDidRequest(log, event.key, event.disposition) else log + [event]
  }

  /** The log kept after any sequence of raw events. */
  ghost function RecordAll(raw: Log): Log {
    if raw == [] then [] else Recorded(RecordAll(raw[..|raw| - 1]), raw[|raw| - 1])
  }

  class Recorder {
    var log: Log

    constructor ()
      ensures log == []
    {
      log := [];
    }

    method WillRequest(key: string)
      modifies this
      ensures log == Recorded(old(log), QueryEnter(key))
    {
      log := log + [QueryEnter(key)];
    }

    method DidRequest(key: string, disposition: Disposition)
      modifies this
      ensures log == Recorded(old(log), QueryExit(key, disposition))
    {
      var len := |log|;
      var currentIsLeaf := len >= 1 && log[len - 1] == QueryEnter(key);
      if currentIsLeaf && len >= 2 {
        var previous := log[len - 2];
        if previous.QueryLeaf? && previous.key == key && previous.disposition == disposition {
          log := log[..len - 1];
          log := log[len - 2 := previous.(observations := previous.observations + 1)];
          return;
        }
      }
      if currentIsLeaf && len >= 3 {
        if log[len - 3] == QueryEnter(key) && log[len - 2] == QueryExit(key, disposition) {
          log := log[..len - 3];
          log := log + [QueryLeaf(key, disposition, 2)];
          return;
        }
      }
      log := log + [QueryExit(key, disposition)];
    }

    /** Phases, spans and metadata are appended as they come. */
    method LogOther(event: InspectionEvent)
      requires !event.QueryEnter? && !event.QueryExit? && !event.QueryLeaf?
      modifies this
      ensures log == Recorded(old(log), event)
    {
      log := log + [event];
    }

    method Take() returns (taken: Log)
      modifies this
      ensures taken == old(log) && log == []
    {
      taken := log;
      log := [];
    }
  }

  // ---------------------------------------------------------------- meaning

  function Pairs(key: string, disposition: Disposition, n: nat): (log: Log)
    ensures |log| == 2 * n
  {
    if n == 0 then [] else Pairs(key, disposition, n - 1) + [QueryEnter(key), QueryExit(key, disposition)]
  }

  function ExpandEvent(event: InspectionEvent): Log {
    if event.QueryLeaf? then Pairs(event.key, event.disposition, event.observations) else [event]
  }

  /** The raw events a log stands for. */
  ghost function Expand(log: Log): Log {
    if log == [] then [] else Expand(log[..|log| - 1]) + ExpandEvent(log[|log| - 1])
  }

  lemma ExpandSnoc(log: Log, event: InspectionEvent)
    ensures Expand(log + [event]) == Expand(log) + ExpandEvent(event)
  {
    assert (log + [event])[..|log|] == log;
  }

  ghost predicate Raw(log: Log) {
    forall i :: 0 <= i < |log| ==> !log[i].QueryLeaf?
  }

  lemma LeafKeepsMeaning(front: Log, key: string, disposition: Disposition, n: nat)
    ensures Expand(front + [QueryLeaf(key, disposition, n + 1)])
         == Expand(front + [QueryLeaf(key, disposition, n)] + [QueryEnter(key)]) + [QueryExit(key, disposition)]
  {
    hide Expand;
    ExpandSnoc(front + [QueryLeaf(key, disposition, n)], QueryEnter(key));
    ExpandSnoc(front, QueryLeaf(key, disposition, n));
    ExpandSnoc(front, QueryLeaf(key, disposition, n + 1));
    assert Pairs(key, disposition, n + 1)
        == Pairs(key, disposition, n) + [QueryEnter(key), QueryExit(key, disposition)];
  }

  lemma PairKeepsMeaning(front: Log, key: string, disposition: Disposition)
    ensures Expand(front + [QueryLeaf(key, disposition, 2)])
         == Expand(front + [QueryEnter(key)] + [QueryExit(key, disposition)] + [QueryEnter(key)])
           + [QueryExit(key, disposition)]
  {
    hide Expand;
    ExpandSnoc(front + [QueryEnter(key)] + [QueryExit(key, disposition)], QueryEnter(key));
    ExpandSnoc(front + [QueryEnter(key)], QueryExit(key, disposition));
    ExpandSnoc(front, QueryEnter(key));
    ExpandSnoc(front, QueryLeaf(key, disposition, 2));
    assert Pairs(key, disposition, 2) == Pairs(key, disposition, 1) + [QueryEnter(key), QueryExit(key, disposition)];
    assert Pairs(key, disposition, 1) == [QueryEnter(key), QueryExit(key, disposition)];
  }

  lemma DidRequestKeepsMeaning(log: Log, key: string, disposition: Disposition)
    ensures Expand(AfterDidRequest(log, key, disposition)) == Expand(log) + [QueryExit(key, disposition)]
  {
    hide Expand;
    var n := |log|;
    if EndsWithEnter(log, key) && AfterLeaf(log, key, disposition) {
      var front, leaf := log[..n - 2], log[n - 2];
      assert log == front + [leaf] + [QueryEnter(key)];
      LeafKeepsMeaning(front, key, disposition, leaf.observations);
    } else if EndsWithEnter(log, key) && AfterPair(log, key, disposition) {
      var front := log[..n - 3];
      assert log == front + [QueryEnter(key)] + [QueryExit(key, disposition)] + [QueryEnter(key)];
      PairKeepsMeaning(front, key, disposition);
    } else {
      ExpandSnoc(log, QueryExit(key, disposition));
    }
  }

  /** Coalescing loses nothing: expanding the kept log gives back every raw event in order. */
  lemma {:induction false} RecordingIsLossless(raw: Log)
    requires Raw(raw)
    ensures Expand(RecordAll(raw)) == raw
  {
    if raw != [] {
      var front, last := raw[..|raw| - 1], raw[|raw| - 1];
      RecordingIsLossless(front);
      hide AfterDidRequest, Expand;
      assert raw == front + [last];
      if last.QueryExit? {
        DidRequestKeepsMeaning(RecordAll(front), last.key, last.disposition);
      } else {
        ExpandSnoc(RecordAll(front), last);
      }
    }
  }

  // ---------------------------------------------------------------- maximality

  predicate SameLeaf(a: InspectionEvent, key: string, disposition: Disposition) {
    a.QueryLeaf? && a.key == key && a.disposition == disposition
  }

  /** Events `i` and `i+1` are a request that did nothing. */
  predicate PairAt(log: Log, i: int) {
    0 <= i < |log| - 1 && log[i].QueryEnter? && log[i + 1].QueryExit? && log[i].key == log[i + 1].key
  }

  /** A unit with this key and disposition, a leaf or a pair, ends just before `i`. */
  predicate UnitBefore(log: Log, i: int, key: string, disposition: Disposition) {
    && 0 < i <= |log|
    && (SameLeaf(log[i - 1], key, disposition)
        || (PairAt(log, i - 2) && log[i - 1].key == key && log[i - 1].disposition == disposition))
  }

  /** No two adjacent units are equal, and leaves stand for at least two requests. */
  ghost predicate Compact(log: Log) {
    && (forall i :: 0 <= i < |log| && log[i].QueryLeaf? ==>
          log[i].observations >= 2 && !UnitBefore(log, i, log[i].key, log[i].disposition))
    && (forall i :: PairAt(log, i) ==> !UnitBefore(log, i, log[i + 1].key, log[i + 1].disposition))
  }

  lemma UnitBeforePrefix(log: Log, m: nat, i: int, key: string, disposition: Disposition)
    requires i <= m <= |log|
    ensures UnitBefore(log[..m], i, key, disposition) <==> UnitBefore(log, i, key, disposition)
  {
  }

  lemma CompactPrefix(log: Log, m: nat)
    requires m <= |log| && Compact(log)
    ensures Compact(log[..m])
  {
    var front := log[..m];
    forall i | 0 <= i < |front| && front[i].QueryLeaf?
      ensures front[i].observations >= 2 && !UnitBefore(front, i, front[i].key, front[i].disposition)
    {
      UnitBeforePrefix(log, m, i, front[i].key, front[i].disposition);
    }
    forall i | PairAt(front, i)
      ensures !UnitBefore(front, i, front[i + 1].key, front[i + 1].disposition)
    {
      assert PairAt(log, i);
      UnitBeforePrefix(log, m, i, front[i + 1].key, front[i + 1].disposition);
    }
  }

  /** Appending keeps compactness unless it completes a repeated unit. */
  lemma CompactSnoc(log: Log, event: InspectionEvent)
    requires Compact(log)
    requires event.QueryLeaf? ==> event.observations >= 2 && !UnitBefore(log, |log|, event.key, event.disposition)
    requires event.QueryExit? && EndsWithEnter(log, event.key) ==>
      !UnitBefore(log, |log| - 1, event.key, event.disposition)
    ensures Compact(log + [event])
  {
    var all := log + [event];
    assert all[..|log|] == log;
    forall i | 0 <= i < |all| && all[i].QueryLeaf?
      ensures all[i].observations >= 2 && !UnitBefore(all, i, all[i].key, all[i].disposition)
    {
      UnitBeforePrefix(all, |log|, i, all[i].key, all[i].disposition);
    }
    forall i | PairAt(all, i)
      ensures !UnitBefore(all, i, all[i + 1].key, all[i + 1].disposition)
    {
      UnitBeforePrefix(all, |log|, i, all[i + 1].key, all[i + 1].disposition);
      if i + 1 < |log| {
        assert PairAt(log, i);
      }
    }
  }

  lemma CompactStep(log: Log, event: InspectionEvent)
    requires Compact(log) && !event.QueryLeaf?
    ensures Compact(Recorded(log, event))
  {
    var n := |log|;
    if !event.QueryExit? || !EndsWithEnter(log, event.key) {
      CompactSnoc(log, event);
    } else {
      var key, disposition := event.key, event.disposition;
      if AfterLeaf(log, key, disposition) {
        CompactPrefix(log, n - 2);
        UnitBeforePrefix(log, n - 2, n - 2, key, disposition);
        CompactSnoc(log[..n - 2], QueryLeaf(key, disposition, log[n - 2].observations + 1));
      } else if AfterPair(log, key, disposition) {
        CompactPrefix(log, n - 3);
        assert PairAt(log, n - 3);
        UnitBeforePrefix(log, n - 3, n - 3, key, disposition);
        CompactSnoc(log[..n - 3], QueryLeaf(key, disposition, 2));
      } else {
        CompactSnoc(log, event);
      }
    }
  }

  /** Coalescing is maximal, whatever the events. */
  lemma {:induction false} RecordingIsCompact(raw: Log)
    requires Raw(raw)
    ensures Compact(RecordAll(raw))
  {
    if raw != [] {
      RecordingIsCompact(raw[..|raw| - 1]);
      CompactStep(RecordAll(raw[..|raw| - 1]), raw[|raw| - 1]);
    }
  }

  // ---------------------------------------------------------------- canonicity

  lemma RecordSnoc(raw: Log, event: InspectionEvent)
    ensures RecordAll(raw + [event]) == Recorded(RecordAll(raw), event)
  {
    assert (raw + [event])[..|raw|] == raw;
  }

  /** A repeated unit before an entered request is what triggers coalescing. */
  lemma RepeatIsUnit(log: Log, key: string, disposition: Disposition)
    requires EndsWithEnter(log, key)
    ensures AfterLeaf(log, key, disposition) || AfterPair(log, key, disposition)
       <==> UnitBefore(log, |log| - 1, key, disposition)
  {
    assert AfterPair(log, key, disposition)
      <==> PairAt(log, |log| - 3) && log[|log| - 2].key == key && log[|log| - 2].disposition == disposition;
  }

  lemma RecordIdle(log: Log, key: string, disposition: Disposition)
    ensures var after := Recorded(Recorded(log, QueryEnter(key)), QueryExit(key, disposition));
      && (!UnitBefore(log, |log|, key, disposition) ==> after == log + [QueryEnter(key), QueryExit(key, disposition)])
      && (log != [] && SameLeaf(log[|log| - 1], key, disposition) ==>
            after == log[..|log| - 1] + [QueryLeaf(key, disposition, log[|log| - 1].observations + 1)])
  {
    var entered := log + [QueryEnter(key)];
    RepeatIsUnit(entered, key, disposition);
    assert entered[..|log|] == log;
    UnitBeforePrefix(entered, |log|, |log|, key, disposition);
    if log != [] {
      assert entered[..|entered| - 2] == log[..|log| - 1];
    }
  }

  lemma RecordIdleTwice(log: Log, key: string, disposition: Disposition)
    ensures var paired := log + [QueryEnter(key), QueryExit(key, disposition)];
      Recorded(Recorded(paired, QueryEnter(key)), QueryExit(key, disposition)) == log + [QueryLeaf(key, disposition, 2)]
  {
    var paired := log + [QueryEnter(key), QueryExit(key, disposition)];
    var entered := paired + [QueryEnter(key)];
    assert AfterPair(entered, key, disposition) && !AfterLeaf(entered, key, disposition);
    assert entered[..|entered| - 3] == log;
  }

  /** Recording `n` idle requests after a log that does not end in the same unit. */
  lemma {:induction false} RecordPairs(raw: Log, key: string, disposition: Disposition, n: nat)
    requires n >= 1 && !UnitBefore(RecordAll(raw), |RecordAll(raw)|, key, disposition)
    ensures RecordAll(raw + Pairs(key, disposition, n)) == RecordAll(raw) +
      (if n == 1 then [QueryEnter(key), QueryExit(key, disposition)] else [QueryLeaf(key, disposition, n)])
  {
    hide Recorded, RecordAll, UnitBefore;
    var enter, exit := QueryEnter(key), QueryExit(key, disposition);
    var before := if n == 1 then raw else raw + Pairs(key, disposition, n - 1);
    assert raw + Pairs(key, disposition, n) == before + [enter] + [exit];
    RecordSnoc(before, enter);
    RecordSnoc(before + [enter], exit);
    var log := RecordAll(raw);
    if n == 1 {
      RecordIdle(log, key, disposition);
    } else {
      RecordPairs(raw, key, disposition, n - 1);
      if n == 2 {
        RecordIdleTwice(log, key, disposition);
      } else {
        var leafed := log + [QueryLeaf(key, disposition, n - 1)];
        RecordIdle(leafed, key, disposition);
        assert leafed[..|leafed| - 1] == log;
      }
    }
  }

  /** Every compact log is the coalescing of its own expansion. */
  lemma {:induction false} CompactIsRecorded(log: Log)
    requires Compact(log)
    ensures RecordAll(Expand(log)) == log
  {
    if log != [] {
      var n := |log| - 1;
      var front, last := log[..n], log[n];
      CompactPrefix(log, n);
      CompactIsRecorded(front);
      assert log == front + [last];
      if last.QueryLeaf? {
        UnitBeforePrefix(log, n, n, last.key, last.disposition);
        RecordPairs(Expand(front), last.key, last.disposition, last.observations);
      } else {
        RecordSnoc(Expand(front), last);
        if last.QueryExit? && EndsWithEnter(front, last.key) {
          assert PairAt(log, n - 1);
          UnitBeforePrefix(log, n, n - 1, last.key, last.disposition);
          RepeatIsUnit(front, last.key, last.disposition);
        }
      }
    }
  }

  /** The kept log is the only compact log with that meaning. */
  lemma CompactFormIsUnique(a: Log, b: Log)
    requires Compact(a) && Compact(b) && Expand(a) == Expand(b)
    ensures a == b
  {
    CompactIsRecorded(a);
    CompactIsRecorded(b);
  }
}
