/** What a finished session reports, told from its calls alone: no running state, no stack. */
module SessionReports {
  import opened Wrappers
  import opened ClassModel
  import opened Contracts
  import opened ContractSession
  import opened SessionReference

  // ---------------------------------------------------------------- the trace the calls leave

  /** The entries before position `i` that are still open at `j`, oldest first. */
  ghost function OpenUpTo(trace: seq<Event>, i: nat, j: nat): seq<Invocation>
    requires i <= j <= |trace|
  {
    if i == 0 then []
    else OpenUpTo(trace, i - 1, j) + if OpenAt(trace, i - 1, j) then [trace[i - 1].invocation] else []
  }

  ghost function OpenFrames(trace: seq<Event>): seq<Invocation> {
    OpenUpTo(trace, |trace|, |trace|)
  }

  /** The invocation an entry makes: numbered by the entries before it, called by the innermost open one. */
  ghost function EntryOf(before: seq<Call>, call: Call): Invocation
    requires call.EnterCall?
    decreases |before|, 2
  {
    var open := OpenFrames(TraceOf(before));
    Invocation(1 + |EnterCalls(before)|, if open == [] then None else Some(open[|open| - 1].id),
               call.operation, call.receiver, call.kind)
  }

  /** Every entry, and the exits of the innermost open entry. */
  ghost function TraceOf(calls: seq<Call>): seq<Event>
    decreases |calls|, 1
  {
    if calls == [] then []
    else
      var front, last := calls[..|calls| - 1], calls[|calls| - 1];
      var trace := TraceOf(front);
      var open := OpenFrames(trace);
      match last
      case EnterCall(_, _, _) => trace + [Enter(EntryOf(front, last))]
      case ExitCall(id) => if open != [] && open[|open| - 1].id == id then trace + [Exit(id)] else trace
      case GapCall(_) => trace
  }

  // ---------------------------------------------------------------- what is a violation, what is a gap

  ghost predicate Targeted(rules: seq<CallPermission>, operation: Key) {
    exists i :: 0 <= i < |rules| && operation in rules[i].targets
  }

  /** The contract allows the edge on the same receiver only. */
  ghost predicate ReceiverBound(contract: OperationContract, operation: Key) {
    && (Targeted(contract.invokes, operation) || operation in contract.dispatches)
    && forall i :: 0 <= i < |contract.invokes| && operation in contract.invokes[i].targets ==>
         contract.invokes[i].sameReceiver
  }

  ghost predicate FirstAt(rules: seq<CallPermission>, operation: Key, i: int) {
    0 <= i < |rules| && operation in rules[i].targets && forall j :: 0 <= j < i ==> operation !in rules[j].targets
  }

  /** `rule` stands for the first permission of the edge, if there is one. */
  ghost predicate FirstTargeting(rules: seq<CallPermission>, operation: Key, rule: Option<ContractRule>) {
    match rule
    case None => !Targeted(rules, operation)
    case Some(found) =>
      exists i :: FirstAt(rules, operation, i) && rules[i].rule == found
  }

  ghost predicate ForbiddenUnder(operations: Operations, frame: Invocation, entry: Invocation, rule: CallPermission) {
    && frame.operation in operations && rule in operations[frame.operation].prohibits
    && entry.operation in rule.targets
  }

  predicate ReceiversKnown(a: Invocation, b: Invocation) {
    a.receiver.Some? && b.receiver.Some?
  }

  ghost predicate ForbiddenBy(operations: Operations, open: seq<Invocation>, entry: Invocation,
                              found: Option<ContractRule>) {
    exists frame, rule :: frame in open && ForbiddenUnder(operations, frame, entry, rule)
      && (rule.sameReceiver ==> SameReceiver(frame, entry)) && found == Some(rule.rule)
  }

  /** The request of `entry` by the innermost open frame, judged by that frame's contract. */
  ghost predicate CallFault(operations: Operations, open: seq<Invocation>, entry: Invocation, v: Violation) {
    && entry.kind.Request? && open != [] && open[|open| - 1].operation in operations
    && var caller := open[|open| - 1];
       var contract := operations[caller.operation];
       match v.kind
       case UndeclaredCall =>
         !Targeted(contract.invokes, entry.operation) && entry.operation !in contract.dispatches && v.rule.None?
       case ReceiverMismatch =>
         ReceiverBound(contract, entry.operation) && ReceiversKnown(caller, entry) && caller.receiver != entry.receiver
         && FirstTargeting(contract.invokes, entry.operation, v.rule)
       case _ => false
  }

  ghost predicate EntryFault(operations: Operations, roots: set<Key>, open: seq<Invocation>, entry: Invocation,
                             v: Violation) {
    && v.invocation == entry.id && v.path == open + [entry]
    && match v.kind
       case UnknownOperation => entry.operation !in operations && v.rule.None?
       case UnexpectedRoot => entry.kind.Request? && open == [] && entry.operation !in roots && v.rule.None?
       case UndeclaredCall => CallFault(operations, open, entry, v)
       case ReceiverMismatch => CallFault(operations, open, entry, v)
       case ForbiddenTransitive => ForbiddenBy(operations, open, entry, v.rule)
       case UnbalancedExit => false
  }

  /** The call after `before` is at fault, and `v` says how. */
  ghost predicate FaultAt(operations: Operations, roots: set<Key>, before: seq<Call>, call: Call, v: Violation) {
    var open := OpenFrames(TraceOf(before));
    match call
    case EnterCall(_, _, _) => EntryFault(operations, roots, open, EntryOf(before, call), v)
    case ExitCall(id) => v == Violation(UnbalancedExit, id, open, None) && !(open != [] && open[|open| - 1].id == id)
    case GapCall(_) => false
  }

  ghost predicate IsViolation(operations: Operations, roots: set<Key>, calls: seq<Call>, v: Violation) {
    exists n :: 0 <= n < |calls| && FaultAt(operations, roots, calls[..n], calls[n], v)
  }

  ghost predicate EntryGap(operations: Operations, open: seq<Invocation>, entry: Invocation, gap: Gap) {
    match gap
    case ReceiverRequired(caller, callee, id) =>
      && callee == entry.operation && id == entry.id && entry.kind.Request?
      && open != [] && caller == open[|open| - 1].operation && caller in operations
      && ReceiverBound(operations[caller], callee) && !ReceiversKnown(open[|open| - 1], entry)
    case ProhibitionReceiverRequired(ancestor, callee, id) =>
      && callee == entry.operation && id == entry.id
      && exists frame, rule :: frame in open && ForbiddenUnder(operations, frame, entry, rule)
           && rule.sameReceiver && !ReceiversKnown(frame, entry) && ancestor == frame.operation
    case _ => false
  }

  ghost predicate GapAt(operations: Operations, before: seq<Call>, call: Call, gap: Gap) {
    match call
    case EnterCall(_, _, _) => EntryGap(operations, OpenFrames(TraceOf(before)), EntryOf(before, call), gap)
    case ExitCall(_) => false
    case GapCall(message) => gap == Reported(message)
  }

  ghost predicate IsGapSoFar(operations: Operations, roots: set<Key>, calls: seq<Call>, gap: Gap) {
    || gap in MissingRoots(operations, roots)
    || exists n :: 0 <= n < |calls| && GapAt(operations, calls[..n], calls[n], gap)
  }

  ghost predicate IsGap(operations: Operations, roots: set<Key>, calls: seq<Call>, gap: Gap) {
    || IsGapSoFar(operations, roots, calls, gap)
    || (OpenFrames(TraceOf(calls)) != [] && gap == Unclosed(OpenFrames(TraceOf(calls))))
  }

  ghost function Entries(calls: seq<Call>, kind: EntryKind): nat {
    if calls == [] then 0
    else
      var last := calls[|calls| - 1];
      Entries(calls[..|calls| - 1], kind) + if last.EnterCall? && last.kind == kind then 1 else 0
  }

  /** The whole report, field by field. */
  ghost predicate Accounts(operations: Operations, roots: set<Key>, calls: seq<Call>, report: Report) {
    && report.trace == TraceOf(calls)
    && (forall v :: v in report.violations <==> IsViolation(operations, roots, calls, v))
    && (forall gap :: gap in report.gaps <==> IsGap(operations, roots, calls, gap))
    && (forall effect :: effect in report.uncheckedEffects <==> EntersUnchecked(operations, TraceOf(calls), effect))
    && report.checkedRequests == Entries(calls, Request) && report.validationContexts == Entries(calls, Validation)
    && (report.callsConform <==> report.violations == [] && report.gaps == [])
  }

  // ---------------------------------------------------------------- the findings of one entry

  lemma TargetingSnoc(front: seq<CallPermission>, last: CallPermission, operation: Key)
    ensures Targeting(front + [last], operation)
         == Targeting(front, operation) + if operation in last.targets then [last] else []
  {
    assert (front + [last])[..|front|] == front;
    assert Targeting(front, operation) + [] == Targeting(front, operation);
  }

  /** The first of the rules kept is the first that names the operation. */
  lemma {:induction false} TargetingHead(rules: seq<CallPermission>, operation: Key) returns (i: int)
    ensures Targeting(rules, operation) == [] <==> !Targeted(rules, operation)
    ensures Targeting(rules, operation) != [] ==>
      FirstAt(rules, operation, i) && rules[i] == Targeting(rules, operation)[0]
  {
    i := 0;
    if rules == [] {
      assert Targeting(rules, operation) == [];
    } else {
      hide Targeting;
      var n := |rules| - 1;
      var front := rules[..n];
      assert rules == front + [rules[n]];
      TargetingSnoc(front, rules[n], operation);
      i := TargetingHead(front, operation);
      if Targeting(front, operation) == [] {
        i := n;
        assert forall j :: 0 <= j < n ==> rules[j] == front[j];
      }
    }
  }

  lemma OneFirst(rules: seq<CallPermission>, operation: Key, i: int, j: int)
    requires FirstAt(rules, operation, i) && FirstAt(rules, operation, j)
    ensures i == j
  {
  }

  lemma TargetingFirst(rules: seq<CallPermission>, operation: Key, rule: Option<ContractRule>)
    ensures var found := Targeting(rules, operation);
      FirstTargeting(rules, operation, rule) <==> rule == if found == [] then None else Some(found[0].rule)
  {
    hide Targeting;
    var i := TargetingHead(rules, operation);
    if rule.Some? && FirstTargeting(rules, operation, rule) {
      var j :| FirstAt(rules, operation, j) && rules[j].rule == rule.value;
      OneFirst(rules, operation, i, j);
    }
  }

  lemma CallFindings(operations: Operations, open: seq<Invocation>, entry: Invocation)
    requires open != [] && open[|open| - 1].operation in operations
    ensures var caller := open[|open| - 1];
      var found := CallCheck(operations[caller.operation], open, caller, entry);
      && (forall v :: v in found.violations <==>
            v.invocation == entry.id && v.path == open + [entry]
            && CallFault(operations, open, entry.(kind := Request), v))
      && (forall gap :: gap in found.gaps <==>
            gap.ReceiverRequired? && EntryGap(operations, open, entry.(kind := Request), gap))
  {
    var caller := open[|open| - 1];
    var contract := operations[caller.operation];
    var permissions := Targeting(contract.invokes, entry.operation);
    assert Targeted(contract.invokes, entry.operation) <==> permissions != [] by {
      TargetingFirst(contract.invokes, entry.operation, None);
    }
    assert ReceiverBound(contract, entry.operation) <==>
      !Unrestricted(permissions) && (permissions != [] || entry.operation in contract.dispatches) by {
      if Unrestricted(permissions) {
        var i :| 0 <= i < |permissions| && !permissions[i].sameReceiver;
        assert permissions[i] in contract.invokes && entry.operation in permissions[i].targets;
      }
      forall i | 0 <= i < |contract.invokes| && entry.operation in contract.invokes[i].targets
        ensures contract.invokes[i] in permissions
      {
        assert contract.invokes[i] in contract.invokes;
      }
    }
    assert Unrestricted(permissions) ==> permissions != [];
    forall rule
      ensures FirstTargeting(contract.invokes, entry.operation, rule) <==>
        rule == if permissions == [] then None else Some(permissions[0].rule)
    {
      TargetingFirst(contract.invokes, entry.operation, rule);
    }
  }

  lemma RequestFindings(operations: Operations, roots: set<Key>, open: seq<Invocation>, entry: Invocation)
    requires entry.kind.Request?
    ensures var found := RequestCheck(operations, roots, open, entry);
      && (forall v :: v in found.violations <==>
            !v.kind.UnknownOperation? && !v.kind.ForbiddenTransitive? && EntryFault(operations, roots, open, entry, v))
      && (forall gap :: gap in found.gaps <==> gap.ReceiverRequired? && EntryGap(operations, open, entry, gap))
  {
    hide CallCheck, ReceiverBound, FirstTargeting, Targeted, ForbiddenBy;
    assert entry.(kind := Request) == entry;
    if open != [] && open[|open| - 1].operation in operations {
      CallFindings(operations, open, entry);
    }
  }

  /** One prohibition of an open frame, and what it yields. */
  lemma RestrictionFindings(open: seq<Invocation>, r: Restriction, entry: Invocation)
    ensures var found := RestrictionCheck(open, r, entry);
      && (forall v :: v in found.violations <==>
            v == Violation(ForbiddenTransitive, entry.id, open + [entry], Some(r.rule.rule))
            && (r.rule.sameReceiver ==> SameReceiver(r.ancestor, entry)))
      && (forall gap :: gap in found.gaps <==>
            gap == ProhibitionReceiverRequired(r.ancestor.operation, entry.operation, entry.id)
            && r.rule.sameReceiver && !ReceiversKnown(r.ancestor, entry))
  {
  }

  lemma {:induction false} AllRestrictionFindings(open: seq<Invocation>, restrictions: seq<Restriction>,
                                                  entry: Invocation, v: Violation, gap: Gap)
    ensures v in RestrictionsCheck(open, restrictions, entry).violations <==>
      exists r :: r in restrictions && v in RestrictionCheck(open, r, entry).violations
    ensures gap in RestrictionsCheck(open, restrictions, entry).gaps <==>
      exists r :: r in restrictions && gap in RestrictionCheck(open, r, entry).gaps
  {
    hide RestrictionCheck;
    if restrictions != [] {
      var front, last := restrictions[..|restrictions| - 1], restrictions[|restrictions| - 1];
      AllRestrictionFindings(open, front, entry, v, gap);
      assert restrictions == front + [last];
      assert last in restrictions && forall r :: r in restrictions <==> r in front || r == last;
    }
  }

  lemma ProhibitionFindings(operations: Operations, open: seq<Invocation>, entry: Invocation, v: Violation, gap: Gap)
    ensures var found := ProhibitionCheck(operations, open, entry);
      && (v in found.violations <==>
            v.kind.ForbiddenTransitive? && v.invocation == entry.id && v.path == open + [entry]
            && ForbiddenBy(operations, open, entry, v.rule))
      && (gap in found.gaps <==> gap.ProhibitionReceiverRequired? && EntryGap(operations, open, entry, gap))
  {
    hide RestrictionsCheck, RestrictionCheck, Restrictions;
    var restrictions := Restrictions(operations, open, entry.operation);
    AllRestrictionFindings(open, restrictions, entry, v, gap);
    forall r
      ensures r in restrictions <==> r.ancestor in open && ForbiddenUnder(operations, r.ancestor, entry, r.rule)
    {
      RestrictionsAre(operations, open, entry.operation, r);
    }
    forall r
      ensures v in RestrictionCheck(open, r, entry).violations <==>
            v == Violation(ForbiddenTransitive, entry.id, open + [entry], Some(r.rule.rule))
            && (r.rule.sameReceiver ==> SameReceiver(r.ancestor, entry))
      ensures gap in RestrictionCheck(open, r, entry).gaps <==>
            gap == ProhibitionReceiverRequired(r.ancestor.operation, entry.operation, entry.id)
            && r.rule.sameReceiver && !ReceiversKnown(r.ancestor, entry)
    {
      RestrictionFindings(open, r, entry);
    }
    if v.kind.ForbiddenTransitive? && ForbiddenBy(operations, open, entry, v.rule) {
      var frame, rule :| frame in open && ForbiddenUnder(operations, frame, entry, rule)
        && (rule.sameReceiver ==> SameReceiver(frame, entry)) && v.rule == Some(rule.rule);
      assert Restriction(frame, rule) in restrictions;
    }
    if gap.ProhibitionReceiverRequired? && EntryGap(operations, open, entry, gap) {
      var frame, rule :| frame in open && ForbiddenUnder(operations, frame, entry, rule)
        && rule.sameReceiver && !ReceiversKnown(frame, entry) && gap.ancestor == frame.operation;
      assert Restriction(frame, rule) in restrictions;
    }
  }

  /** The checks of one entry record exactly its faults and its gaps. */
  lemma EntryFindings(operations: Operations, roots: set<Key>, open: seq<Invocation>, entry: Invocation)
    ensures var found := EntryCheck(operations, roots, open, entry);
      && (forall v :: v in found.violations <==> EntryFault(operations, roots, open, entry, v))
      && (forall gap :: gap in found.gaps <==> EntryGap(operations, open, entry, gap))
  {
    hide RequestCheck, ProhibitionCheck, ForbiddenBy, ReceiverBound;
    if entry.kind.Request? {
      RequestFindings(operations, roots, open, entry);
    }
    var known := KnownCheck(operations, open, entry);
    var request := if entry.kind.Request? then RequestCheck(operations, roots, open, entry) else NO_FINDINGS;
    var prohibited := ProhibitionCheck(operations, open, entry);
    var found := EntryCheck(operations, roots, open, entry);
    assert found.violations == known.violations + request.violations + prohibited.violations;
    assert found.gaps == known.gaps + request.gaps + prohibited.gaps;
    assert forall v :: v in known.violations <==>
      v.kind.UnknownOperation? && EntryFault(operations, roots, open, entry, v);
    assert forall v :: v in request.violations <==>
      !v.kind.UnknownOperation? && !v.kind.ForbiddenTransitive? && EntryFault(operations, roots, open, entry, v);
    forall v
      ensures v in prohibited.violations <==>
        v.kind.ForbiddenTransitive? && EntryFault(operations, roots, open, entry, v)
    {
      ProhibitionFindings(operations, open, entry, v, Reported(""));
    }
    forall gap
      ensures gap in prohibited.gaps <==> gap.ProhibitionReceiverRequired? && EntryGap(operations, open, entry, gap)
    {
      ProhibitionFindings(operations, open, entry, Violation(UnbalancedExit, 0, [], None), gap);
    }
  }

  // ---------------------------------------------------------------- the open frames

  lemma {:induction false} OpenAfterEnter(trace: seq<Event>, entry: Invocation, i: nat)
    requires i <= |trace|
    ensures OpenUpTo(trace + [Enter(entry)], i, |trace| + 1) == OpenUpTo(trace, i, |trace|)
  {
    if i > 0 {
      OpenAfterEnter(trace, entry, i - 1);
      OpenAfterEvent(trace, Enter(entry), i - 1);
    }
  }

  lemma OpenAfterEntry(trace: seq<Event>, entry: Invocation)
    ensures OpenFrames(trace + [Enter(entry)]) == OpenFrames(trace) + [entry]
  {
    var n := |trace|;
    OpenAfterEnter(trace, entry, n);
    OpenAfterEvent(trace, Enter(entry), n);
    assert (trace + [Enter(entry)])[n] == Enter(entry);
    assert !OpenAt(trace, n, n);
  }

  /** Leaving out the frames of one id. */
  function WithoutId(frames: seq<Invocation>, id: InvocationId): seq<Invocation> {
    if frames == [] then []
    else
      var last := frames[|frames| - 1];
      WithoutId(frames[..|frames| - 1], id) + if last.id == id then [] else [last]
  }

  lemma WithoutSnoc(frames: seq<Invocation>, last: Invocation, id: InvocationId)
    ensures WithoutId(frames + [last], id) == WithoutId(frames, id) + if last.id == id then [] else [last]
  {
    assert (frames + [last])[..|frames|] == frames;
  }

  lemma {:induction false} OpenAfterExit(trace: seq<Event>, id: InvocationId, i: nat)
    requires i <= |trace|
    ensures OpenUpTo(trace + [Exit(id)], i, |trace| + 1) == WithoutId(OpenUpTo(trace, i, |trace|), id)
  {
    if i > 0 {
      OpenAfterExit(trace, id, i - 1);
      OpenAfterEvent(trace, Exit(id), i - 1);
      var before := OpenUpTo(trace, i - 1, |trace|);
      if OpenAt(trace, i - 1, |trace|) {
        WithoutSnoc(before, trace[i - 1].invocation, id);
      } else {
        assert before + [] == before;
      }
    }
  }

  lemma {:induction false} NothingWithout(frames: seq<Invocation>, id: InvocationId)
    requires forall a :: 0 <= a < |frames| ==> frames[a].id != id
    ensures WithoutId(frames, id) == frames
  {
    if frames != [] {
      NothingWithout(frames[..|frames| - 1], id);
      assert frames == frames[..|frames| - 1] + [frames[|frames| - 1]];
    }
  }

  lemma OpenAfterMatchedExit(trace: seq<Event>, active: seq<Invocation>, id: InvocationId)
    requires OpenFrames(trace) == active && IsActiveTop(active, id)
    requires forall a, b :: 0 <= a < b < |active| ==> active[a].id < active[b].id
    ensures OpenFrames(trace + [Exit(id)]) == active[..|active| - 1]
  {
    var n := |trace|;
    OpenAfterExit(trace, id, n);
    assert (trace + [Exit(id)])[n] == Exit(id);
    var front, top := active[..|active| - 1], active[|active| - 1];
    assert active == front + [top];
    WithoutSnoc(front, top, id);
    NothingWithout(front, id);
  }

  // ---------------------------------------------------------------- every run

  ghost predicate SoFar(operations: Operations, roots: set<Key>, calls: seq<Call>, state: State) {
    && state.trace == TraceOf(calls) && state.active == OpenFrames(state.trace)
    && (forall v :: v in state.violations <==> IsViolation(operations, roots, calls, v))
    && (forall gap :: gap in state.gaps <==> IsGapSoFar(operations, roots, calls, gap))
    && state.checkedRequests == Entries(calls, Request) && state.validationContexts == Entries(calls, Validation)
  }

  lemma ViolationSnoc(operations: Operations, roots: set<Key>, calls: seq<Call>, call: Call, v: Violation)
    ensures IsViolation(operations, roots, calls + [call], v)
       <==> IsViolation(operations, roots, calls, v) || FaultAt(operations, roots, calls, call, v)
  {
    hide FaultAt;
    var all := calls + [call];
    assert all[..|calls|] == calls && all[|calls|] == call;
    assert forall n :: 0 <= n < |calls| ==> all[n] == calls[n] && all[..n] == calls[..n];
  }

  lemma GapSnoc(operations: Operations, roots: set<Key>, calls: seq<Call>, call: Call, gap: Gap)
    ensures IsGapSoFar(operations, roots, calls + [call], gap)
       <==> IsGapSoFar(operations, roots, calls, gap) || GapAt(operations, calls, call, gap)
  {
    hide GapAt;
    var all := calls + [call];
    assert all[..|calls|] == calls && all[|calls|] == call;
    assert forall n :: 0 <= n < |calls| ==> all[n] == calls[n] && all[..n] == calls[..n];
  }

  lemma AllSnoc(operations: Operations, roots: set<Key>, calls: seq<Call>, call: Call)
    ensures forall v :: IsViolation(operations, roots, calls + [call], v)
                   <==> IsViolation(operations, roots, calls, v) || FaultAt(operations, roots, calls, call, v)
    ensures forall gap :: IsGapSoFar(operations, roots, calls + [call], gap)
                     <==> IsGapSoFar(operations, roots, calls, gap) || GapAt(operations, calls, call, gap)
  {
    hide FaultAt, GapAt, IsViolation, IsGapSoFar;
    forall v
      ensures IsViolation(operations, roots, calls + [call], v)
         <==> IsViolation(operations, roots, calls, v) || FaultAt(operations, roots, calls, call, v)
    {
      ViolationSnoc(operations, roots, calls, call, v);
    }
    forall gap
      ensures IsGapSoFar(operations, roots, calls + [call], gap)
         <==> IsGapSoFar(operations, roots, calls, gap) || GapAt(operations, calls, call, gap)
    {
      GapSnoc(operations, roots, calls, call, gap);
    }
  }

  lemma CallsSnoc(calls: seq<Call>, call: Call)
    ensures forall kind :: Entries(calls + [call], kind)
                        == Entries(calls, kind) + if call.EnterCall? && call.kind == kind then 1 else 0
    ensures call.EnterCall? ==> TraceOf(calls + [call]) == TraceOf(calls) + [Enter(EntryOf(calls, call))]
    ensures call.ExitCall? ==>
      TraceOf(calls + [call]) ==
      if IsActiveTop(OpenFrames(TraceOf(calls)), call.id) then TraceOf(calls) + [Exit(call.id)] else TraceOf(calls)
    ensures call.GapCall? ==> TraceOf(calls + [call]) == TraceOf(calls)
  {
    var all := calls + [call];
    assert all[..|calls|] == calls && all[|calls|] == call;
  }

  lemma SoFarEnter(operations: Operations, roots: set<Key>, state: State, calls: seq<Call>, operation: Key,
                   receiver: Option<string>, kind: EntryKind)
    requires SoFar(operations, roots, calls, state) && state.nextId == 1 + |EnterCalls(calls)|
    ensures SoFar(operations, roots, calls + [EnterCall(operation, receiver, kind)],
                  AfterEnter(operations, roots, state, operation, receiver, kind))
  {
    hide EntryCheck, EntryFault, EntryGap, IsViolation, IsGapSoFar, OpenFrames, TraceOf, Entries, EnterCalls;
    var call := EnterCall(operation, receiver, kind);
    var entry := Entered(state, operation, receiver, kind);
    AllSnoc(operations, roots, calls, call);
    CallsSnoc(calls, call);
    assert entry == EntryOf(calls, call);
    EntryFindings(operations, roots, state.active, entry);
    OpenAfterEntry(state.trace, entry);
  }

  lemma SoFarExit(operations: Operations, roots: set<Key>, state: State, calls: seq<Call>, id: InvocationId)
    requires SoFar(operations, roots, calls, state) && Sound(state)
    ensures SoFar(operations, roots, calls + [ExitCall(id)], AfterExit(state, id))
  {
    hide IsViolation, IsGapSoFar, OpenFrames, TraceOf, Entries, Replay, Positioned, OpenAt;
    var call := ExitCall(id);
    AllSnoc(operations, roots, calls, call);
    CallsSnoc(calls, call);
    if IsActiveTop(state.active, id) {
      OpenAfterMatchedExit(state.trace, state.active, id);
    }
  }

  lemma SoFarStep(operations: Operations, roots: set<Key>, state: State, calls: seq<Call>, call: Call)
    requires SoFar(operations, roots, calls, state) && Sound(state) && state.nextId == 1 + |EnterCalls(calls)|
    ensures SoFar(operations, roots, calls + [call], Step(operations, roots, state, call))
  {
    hide IsViolation, IsGapSoFar, OpenFrames, TraceOf, Entries, Sound;
    match call
    case EnterCall(operation, receiver, kind) =>
      SoFarEnter(operations, roots, state, calls, operation, receiver, kind);
    case ExitCall(id) => SoFarExit(operations, roots, state, calls, id);
    case GapCall(message) =>
      AllSnoc(operations, roots, calls, call);
      CallsSnoc(calls, call);
  }

  lemma NextIdCounts(state: State, calls: seq<Call>)
    requires Recorded(state, calls)
    ensures state.nextId == 1 + |EnterCalls(calls)|
  {
  }

  lemma SoFarAtStart(operations: Operations, roots: set<Key>, start: State)
    requires Initial(operations, roots, start)
    ensures SoFar(operations, roots, [], start)
  {
  }

  lemma {:induction false} RunSoFar(operations: Operations, roots: set<Key>, start: State, calls: seq<Call>)
    requires Initial(operations, roots, start)
    ensures SoFar(operations, roots, calls, Run(operations, roots, start, calls))
  {
    if calls == [] {
      SoFarAtStart(operations, roots, start);
    } else {
      hide SoFar, Sound, Recorded, Step, Initial;
      var front := calls[..|calls| - 1];
      RunSoFar(operations, roots, start, front);
      RunIsSound(operations, roots, start, front);
      TraceRecordsCalls(operations, roots, start, front);
      NextIdCounts(Run(operations, roots, start, front), front);
      SoFarStep(operations, roots, Run(operations, roots, start, front), front, calls[|calls| - 1]);
      assert calls == front + [calls[|calls| - 1]];
    }
  }

  /** What a report lists, for every sequence of session calls: a violation or a gap is listed exactly
      when the reference condition fails at that call, with the frames open there and the broken rule. */
  lemma ReportAccounts(operations: Operations, roots: set<Key>, start: State, calls: seq<Call>)
    requires Initial(operations, roots, start)
    ensures Accounts(operations, roots, calls, ReportOf(Run(operations, roots, start, calls)))
  {
    hide IsViolation, IsGapSoFar, Initial, OpenFrames, EntersUnchecked;
    RunSoFar(operations, roots, start, calls);
    var end := Run(operations, roots, start, calls);
    forall effect
      ensures effect in end.uncheckedEffects <==> EntersUnchecked(operations, TraceOf(calls), effect)
    {
      UncheckedAreEntered(operations, roots, start, calls, effect);
    }
  }

  // ---------------------------------------------------------------- the order of what is listed

  /** Later calls only add to what is listed. */
  lemma {:induction false} FindingsGrow(operations: Operations, roots: set<Key>, start: State, calls: seq<Call>, n: nat)
    requires n <= |calls|
    ensures Run(operations, roots, start, calls[..n]).violations <= Run(operations, roots, start, calls).violations
    ensures Run(operations, roots, start, calls[..n]).gaps <= Run(operations, roots, start, calls).gaps
    decreases |calls|
  {
    if n < |calls| {
      hide EntryCheck;
      var front := calls[..|calls| - 1];
      FindingsGrow(operations, roots, start, front, n);
      assert front[..n] == calls[..n];
    } else {
      assert calls[..n] == calls;
    }
  }

  /** `at` gives each restriction its frame and its rule, frames outermost first, rules in contract order. */
  ghost predicate Placed(operations: Operations, active: seq<Invocation>, found: seq<Restriction>,
                         at: seq<(nat, nat)>) {
    && |at| == |found|
    && (forall k :: 0 <= k < |at| ==> PlacedAt(operations, active, found[k], at[k]))
    && (forall k, l :: 0 <= k < l < |at| ==> at[k].0 < at[l].0 || (at[k].0 == at[l].0 && at[k].1 < at[l].1))
  }

  ghost predicate PlacedAt(operations: Operations, active: seq<Invocation>, r: Restriction, at: (nat, nat)) {
    && at.0 < |active| && active[at.0] == r.ancestor && r.ancestor.operation in operations
    && at.1 < |operations[r.ancestor.operation].prohibits| && operations[r.ancestor.operation].prohibits[at.1] == r.rule
  }

  ghost predicate Increasing(rules: seq<CallPermission>, found: seq<CallPermission>, ix: seq<nat>) {
    && |ix| == |found|
    && (forall k :: 0 <= k < |ix| ==> ix[k] < |rules| && rules[ix[k]] == found[k])
    && (forall k, l :: 0 <= k < l < |ix| ==> ix[k] < ix[l])
  }

  lemma {:induction false} TargetingInOrder(rules: seq<CallPermission>, operation: Key) returns (ix: seq<nat>)
    ensures Increasing(rules, Targeting(rules, operation), ix)
  {
    ix := [];
    if rules == [] {
      assert Targeting(rules, operation) == [];
    } else {
      hide Targeting;
      var n := |rules| - 1;
      assert rules == rules[..n] + [rules[n]];
      TargetingSnoc(rules[..n], rules[n], operation);
      ix := TargetingInOrder(rules[..n], operation);
      if operation in rules[n].targets {
        ix := ix + [n];
      }
    }
  }

  lemma RestrictionsSnoc(operations: Operations, front: seq<Invocation>, last: Invocation, operation: Key)
    ensures Restrictions(operations, front + [last], operation) == Restrictions(operations, front, operation) +
      if last.operation in operations then Restrict(last, Targeting(operations[last.operation].prohibits, operation))
      else []
  {
    assert (front + [last])[..|front|] == front;
  }

  lemma PlacedBehind(operations: Operations, front: seq<Invocation>, last: Invocation, found: seq<Restriction>,
                     at: seq<(nat, nat)>)
    requires Placed(operations, front, found, at)
    ensures Placed(operations, front + [last], found, at)
    ensures forall k :: 0 <= k < |at| ==> at[k].0 < |front|
  {
    assert forall k :: 0 <= k < |at| ==> PlacedAt(operations, front, found[k], at[k]);
  }

  lemma PlacedNext(operations: Operations, front: seq<Invocation>, last: Invocation, found: seq<Restriction>,
                   at: seq<(nat, nat)>, rules: seq<CallPermission>, ix: seq<nat>)
    requires Placed(operations, front + [last], found, at)
    requires last.operation in operations && Increasing(operations[last.operation].prohibits, rules, ix)
    requires forall k :: 0 <= k < |at| ==> at[k].0 < |front|
    ensures Placed(operations, front + [last], found + Restrict(last, rules),
                   at + seq(|ix|, k requires 0 <= k < |ix| => (|front|, ix[k])))
  {
    var active, all := front + [last], found + Restrict(last, rules);
    var places := at + seq(|ix|, k requires 0 <= k < |ix| => (|front|, ix[k]));
    forall k | 0 <= k < |places|
      ensures PlacedAt(operations, active, all[k], places[k])
    {
      if k < |at| {
        assert PlacedAt(operations, active, found[k], at[k]);
      }
    }
  }

  /** The prohibitions met by an entry are those of the open frames, outermost frame first. */
  lemma {:induction false} RestrictionsInOrder(operations: Operations, active: seq<Invocation>, operation: Key)
    returns (at: seq<(nat, nat)>)
    ensures Placed(operations, active, Restrictions(operations, active, operation), at)
  {
    at := [];
    if active == [] {
      assert Restrictions(operations, active, operation) == [];
    } else {
      hide Targeting, Restrictions, Placed, Increasing;
      var n := |active| - 1;
      var front, last := active[..n], active[n];
      assert active == front + [last];
      RestrictionsSnoc(operations, front, last, operation);
      var found := Restrictions(operations, front, operation);
      at := RestrictionsInOrder(operations, front, operation);
      PlacedBehind(operations, front, last, found, at);
      if last.operation in operations {
        var rules := operations[last.operation].prohibits;
        var ix := TargetingInOrder(rules, operation);
        PlacedNext(operations, front, last, found, at, Targeting(rules, operation), ix);
        at := at + seq(|ix|, k requires 0 <= k < |ix| => (n, ix[k]));
      } else {
        assert found + [] == found;
      }
    }
  }

  function Stage(kind: ViolationKind): nat {
    match kind
    case UnknownOperation => 0
    case ForbiddenTransitive => 2
    case _ => 1
  }

  ghost predicate Staged(found: seq<Violation>) {
    forall k, l :: 0 <= k < l < |found| ==> Stage(found[k].kind) <= Stage(found[l].kind)
  }

  /** An entry lists an unknown operation first, then the judgement of the request, then broken prohibitions. */
  lemma EntryIsStaged(operations: Operations, roots: set<Key>, open: seq<Invocation>, entry: Invocation)
    ensures Staged(EntryCheck(operations, roots, open, entry).violations)
  {
    hide RequestCheck, ProhibitionCheck, EntryFault, EntryGap;
    var known := KnownCheck(operations, open, entry).violations;
    var request := if entry.kind.Request? then RequestCheck(operations, roots, open, entry).violations else [];
    var prohibited := ProhibitionCheck(operations, open, entry).violations;
    if entry.kind.Request? {
      AtMostOne(operations, roots, open, entry);
    }
    forall v | v in prohibited
      ensures Stage(v.kind) == 2
    {
      ProhibitionFindings(operations, open, entry, v, Reported(""));
    }
    assert EntryCheck(operations, roots, open, entry).violations == known + request + prohibited;
  }

  lemma AtMostOne(operations: Operations, roots: set<Key>, open: seq<Invocation>, entry: Invocation)
    ensures var found := RequestCheck(operations, roots, open, entry).violations;
      |found| <= 1 && forall k :: 0 <= k < |found| ==> Stage(found[k].kind) == 1
  {
  }
}
