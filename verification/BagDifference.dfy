/** Subtracting the traced work of one run from another's. */
module BagDifference {
  datatype Identity = Identity(source: string, operation: string, key: string)

  datatype TraceIdentity = TraceIdentity(identity: Identity, observations: nat)

  /** All observations of one identity, however they are split into entries. */
  function Total(entries: seq<TraceIdentity>, identity: Identity): nat {
    if entries == [] then 0
    else
      var last := entries[|entries| - 1];
      Total(entries[..|entries| - 1], identity) + if last.identity == identity then last.observations else 0
  }

  function Surplus(left: nat, right: nat): nat {
    if left > right then left - right else 0
  }

  /** Each entry of `left` with what is left of it once the entries before it have used up
      what `right` has of the same identity. */
  function Survivors(left: seq<TraceIdentity>, right: seq<TraceIdentity>): seq<TraceIdentity> {
    if left == [] then []
    else
      var front, last := left[..|left| - 1], left[|left| - 1];
      var total := Total(right, last.identity);
      var before, after := Surplus(Total(front, last.identity), total), Surplus(Total(left, last.identity), total);
      Survivors(front, right) + if after > before then [TraceIdentity(last.identity, after - before)] else []
  }

  lemma TotalSnoc(front: seq<TraceIdentity>, last: TraceIdentity, identity: Identity)
    ensures Total(front + [last], identity) == Total(front, identity) +
      if last.identity == identity then last.observations else 0
  {
    assert (front + [last])[..|front|] == front;
  }

  lemma SurvivorsSnoc(front: seq<TraceIdentity>, last: TraceIdentity, right: seq<TraceIdentity>)
    ensures var unmatched := Surplus(Total(right, last.identity), Total(front, last.identity));
      var remaining := Surplus(last.observations, unmatched);
      Survivors(front + [last], right) ==
      Survivors(front, right) + if remaining > 0 then [last.(observations := remaining)] else []
  {
    hide Total;
    assert (front + [last])[..|front|] == front;
    TotalSnoc(front, last, last.identity);
  }

  /** The result is exact bag subtraction: for every identity the observations sum to what
      `left` has more than `right`. */
  lemma {:induction false} SurvivorsTotal(left: seq<TraceIdentity>, right: seq<TraceIdentity>, identity: Identity)
    ensures Total(Survivors(left, right), identity) == Surplus(Total(left, identity), Total(right, identity))
  {
    if left != [] {
      var front, last := left[..|left| - 1], left[|left| - 1];
      SurvivorsTotal(front, right, identity);
      var total := Total(right, last.identity);
      var before, after := Surplus(Total(front, last.identity), total), Surplus(Total(left, last.identity), total);
      if after > before {
        TotalSnoc(Survivors(front, right), TraceIdentity(last.identity, after - before), identity);
      } else {
        assert Survivors(left, right) == Survivors(front, right);
      }
    }
  }

  /** Entries survive in their order, each with no more than it had, and what survives of a
      beginning of `left` does not depend on what comes after it. */
  lemma SurvivesInOrder(left: seq<TraceIdentity>, right: seq<TraceIdentity>, k: nat)
    requires k < |left|
    ensures var before, after := Survivors(left[..k], right), Survivors(left[..k + 1], right);
      || after == before
      || exists n: nat :: 0 < n <= left[k].observations && after == before + [TraceIdentity(left[k].identity, n)]
    ensures Survivors(left[..k + 1], right) <= Survivors(left, right)
    decreases |left| - k
  {
    var front, last := left[..k], left[k];
    assert left[..k + 1] == front + [last];
    SurvivorsSnoc(front, last, right);
    if k + 1 < |left| {
      SurvivesInOrder(left, right, k + 1);
    } else {
      assert left[..k + 1] == left;
    }
  }

  /** Order, splitting and duplication of entries on the right do not matter at all. */
  lemma {:induction false} RightIsABag(left: seq<TraceIdentity>, right: seq<TraceIdentity>, right': seq<TraceIdentity>)
    requires SameBag(right, right')
    ensures Survivors(left, right) == Survivors(left, right')
  {
    if left != [] {
      RightIsABag(left[..|left| - 1], right, right');
    }
  }

  /** No identity survives in both directions. */
  lemma OneDirectionOnly(a: seq<TraceIdentity>, b: seq<TraceIdentity>, identity: Identity)
    ensures Total(Survivors(a, b), identity) == 0 || Total(Survivors(b, a), identity) == 0
    ensures Total(a, identity) + Total(Survivors(b, a), identity)
         == Total(b, identity) + Total(Survivors(a, b), identity)
  {
    SurvivorsTotal(a, b, identity);
    SurvivorsTotal(b, a, identity);
  }

  ghost predicate SameBag(a: seq<TraceIdentity>, b: seq<TraceIdentity>) {
    forall identity :: Total(a, identity) == Total(b, identity)
  }

  /** Nothing survives in either direction exactly when the two sides are the same bag. */
  lemma EmptyIffSameBag(a: seq<TraceIdentity>, b: seq<TraceIdentity>)
    ensures Survivors(a, b) == [] && Survivors(b, a) == [] <==> SameBag(a, b)
  {
    if Survivors(a, b) == [] && Survivors(b, a) == [] {
      forall identity
        ensures Total(a, identity) == Total(b, identity)
      {
        OneDirectionOnly(a, b, identity);
      }
    }
    if SameBag(a, b) {
      CoveredLeavesNothing(a, b);
      CoveredLeavesNothing(b, a);
    }
  }

  lemma CoveredLeavesNothing(left: seq<TraceIdentity>, right: seq<TraceIdentity>)
    requires SameBag(left, right)
    ensures Survivors(left, right) == []
  {
    hide Survivors;
    var result := Survivors(left, right);
    if result != [] {
      var last := result[|result| - 1];
      SurvivorsArePositive(left, right);
      assert last.observations > 0;
      assert Total(result, last.identity) >= last.observations;
      SurvivorsTotal(left, right, last.identity);
    }
  }

  lemma {:induction false} SurvivorsArePositive(left: seq<TraceIdentity>, right: seq<TraceIdentity>)
    ensures forall i :: 0 <= i < |Survivors(left, right)| ==> Survivors(left, right)[i].observations > 0
  {
    if left != [] {
      SurvivorsArePositive(left[..|left| - 1], right);
    }
  }

  // ---------------------------------------------------------------- the algorithm

  lemma {:induction false} TotalUpdate(entries: seq<TraceIdentity>, i: nat, observations: nat, identity: Identity)
    requires i < |entries|
    ensures var entry := entries[i];
      Total(entries[i := entry.(observations := observations)], identity) ==
        Total(entries, identity) + if entry.identity == identity then observations - entry.observations else 0
  {
    var n := |entries| - 1;
    var updated := entries[i := entries[i].(observations := observations)];
    if i < n {
      TotalUpdate(entries[..n], i, observations, identity);
      assert updated[..n] == entries[..n][i := entries[i].(observations := observations)];
    } else {
      assert updated[..n] == entries[..n];
    }
  }

  lemma TotalOfNothing(identity: Identity)
    ensures Total([], identity) == 0
  {
  }

  /** Uses up to `observations` of one identity from the unmatched entries, in place. */
  method Cancel(unmatched: array<TraceIdentity>, identity: Identity, observations: nat) returns (remaining: nat)
    modifies unmatched
    ensures remaining == Surplus(observations, old(Total(unmatched[..], identity)))
    ensures Total(unmatched[..], identity) == Surplus(old(Total(unmatched[..], identity)), observations)
    ensures forall other :: other != identity ==> Total(unmatched[..], other) == old(Total(unmatched[..], other))
  {
    hide Total;
    remaining := observations;
    ghost var start := unmatched[..];
    var i := 0;
    TotalOfNothing(identity);
    while i < unmatched.Length
      invariant 0 <= i <= unmatched.Length && remaining <= observations
      invariant Total(unmatched[..], identity) + (observations - remaining) == Total(start, identity)
      invariant forall other :: other != identity ==> Total(unmatched[..], other) == Total(start, other)
      invariant remaining == 0 || Total(unmatched[..i], identity) == 0
    {
      if remaining == 0 {
        break;
      }
      var candidate := unmatched[i];
      ghost var before := unmatched[..];
      assert unmatched[..i + 1] == unmatched[..i] + [candidate];
      TotalSnoc(unmatched[..i], candidate, identity);
      if candidate.identity == identity {
        var cancelled := if remaining < candidate.observations then remaining else candidate.observations;
        remaining := remaining - cancelled;
        unmatched[i] := candidate.(observations := candidate.observations - cancelled);
        forall other
          ensures Total(unmatched[..], other) == Total(before, other) - if other == identity then cancelled else 0
        {
          TotalUpdate(before, i, candidate.observations - cancelled, other);
          assert unmatched[..] == before[i := unmatched[i]];
        }
        assert unmatched[..i + 1] == before[..i] + [unmatched[i]];
        TotalSnoc(before[..i], unmatched[i], identity);
      }
      i := i + 1;
    }
    assert i == unmatched.Length ==> unmatched[..i] == unmatched[..];
  }

  /** What is left of the right side once `used` of the left has been cancelled against it. */
  ghost predicate Uncancelled(unmatched: seq<TraceIdentity>, right: seq<TraceIdentity>, used: seq<TraceIdentity>) {
    forall identity :: Total(unmatched, identity) == Surplus(Total(right, identity), Total(used, identity))
  }

  lemma CancelStep(before: seq<TraceIdentity>, after: seq<TraceIdentity>, right: seq<TraceIdentity>,
                   used: seq<TraceIdentity>, entry: TraceIdentity)
    requires Uncancelled(before, right, used)
    requires Total(after, entry.identity) == Surplus(Total(before, entry.identity), entry.observations)
    requires forall other :: other != entry.identity ==> Total(after, other) == Total(before, other)
    ensures Uncancelled(after, right, used + [entry])
    ensures var remaining := Surplus(entry.observations, Total(before, entry.identity));
      Survivors(used + [entry], right) ==
      Survivors(used, right) + if remaining > 0 then [entry.(observations := remaining)] else []
  {
    hide Total, Survivors;
    SurvivorsSnoc(used, entry, right);
    forall identity
      ensures Total(after, identity) == Surplus(Total(right, identity), Total(used + [entry], identity))
    {
      assert Total(before, identity) == Surplus(Total(right, identity), Total(used, identity));
      TotalSnoc(used, entry, identity);
    }
  }

  method Difference(left: seq<TraceIdentity>, right: seq<TraceIdentity>) returns (result: seq<TraceIdentity>)
    ensures result == Survivors(left, right)
  {
    var unmatched := new TraceIdentity[|right|](i requires 0 <= i < |right| => right[i]);
    assert unmatched[..] == right;
    result := [];
    for k := 0 to |left|
      invariant result == Survivors(left[..k], right)
      invariant Uncancelled(unmatched[..], right, left[..k])
    {
      hide *;
      assert left[..k + 1] == left[..k] + [left[k]];
      var entry := left[k];
      ghost var before := unmatched[..];
      var remaining := Cancel(unmatched, entry.identity, entry.observations);
      CancelStep(before, unmatched[..], right, left[..k], entry);
      if remaining > 0 {
        result := result + [entry.(observations := remaining)];
      }
    }
    assert left[..|left|] == left;
  }
}
