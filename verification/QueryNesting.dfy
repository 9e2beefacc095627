/** Which sequences of query lifecycle events are properly nested: the stack discipline
    the observer enforces compared with a grammar of query activities. */
module QueryNesting {
  import opened Wrappers
  import opened Observer
  import opened QueryOutcomes

  /** What nesting looks at in an event; executions carry no cause. */
  datatype Shape =
    | Ask(key: QueryKey, cause: Option<RequestCause>)
    | Answer(key: QueryKey, disposition: Disposition, cause: Option<RequestCause>)
    | Begin(key: QueryKey)
    | Done(key: QueryKey)

  function ShapeOf(lifecycle: Lifecycle, cause: Option<RequestCause>): Shape {
    match lifecycle
    case WillRequest(key) => Ask(key, cause)
    case DidRequest(key, disposition) => Answer(key, disposition, cause)
    case WillExecute(key) => Begin(key)
    case DidExecute(key) => Done(key)
  }

  // ---------------------------------------------------------------- the grammar

  /** A complete piece of work and everything that happened inside it. */
  datatype Activity =
    | Requesting(key: QueryKey, cause: Option<RequestCause>, disposition: Disposition, inner: seq<Activity>)
    | Executing(key: QueryKey, inner: seq<Activity>)

  function Shapes(activity: Activity): seq<Shape>
    decreases activity
  {
    match activity
    case Requesting(key, cause, disposition, inner) =>
      [Ask(key, cause)] + ShapesOfAll(inner) + [Answer(key, disposition, cause)]
    case Executing(key, inner) => [Begin(key)] + ShapesOfAll(inner) + [Done(key)]
  }

  function ShapesOfAll(activities: seq<Activity>): seq<Shape>
    decreases activities
  {
    if activities == [] then [] else ShapesOfAll(activities[..|activities| - 1]) + Shapes(activities[|activities| - 1])
  }

  /** Some direct child executes the query itself. */
  predicate Executes(inner: seq<Activity>, key: QueryKey) {
    exists i :: 0 <= i < |inner| && inner[i].Executing? && inner[i].key == key
  }

  predicate HonestDisposition(disposition: Disposition, executed: bool) {
    && (disposition.Executed? ==> executed)
    && (disposition.Validated? || disposition.Reused? ==> !executed)
  }

  /** Every request's disposition agrees with whether it was executed. */
  ghost predicate Honest(activity: Activity)
    decreases activity
  {
    && HonestAll(activity.inner)
    && (activity.Requesting? ==> HonestDisposition(activity.disposition, Executes(activity.inner, activity.key)))
  }

  ghost predicate HonestAll(activities: seq<Activity>)
    decreases activities
  {
    activities != [] ==> HonestAll(activities[..|activities| - 1]) && Honest(activities[|activities| - 1])
  }

  // ---------------------------------------------------------------- the stack

  datatype Frame = Frame(key: QueryKey, kind: ScopeKind)

  function Marked(frames: seq<Frame>, key: QueryKey): seq<Frame> {
    if frames != [] && frames[|frames| - 1].key == key && frames[|frames| - 1].kind.RequestScope? then
      frames[..|frames| - 1] + [Frame(key, RequestScope(true, frames[|frames| - 1].kind.cause))]
    else frames
  }

  /** The open frames after one event, or `None` where the observer reports a gap. */
  function Advance(frames: seq<Frame>, shape: Shape): Option<seq<Frame>> {
    match shape
    case Ask(key, cause) => Some(frames + [Frame(key, RequestScope(false, cause))])
    case Begin(key) => Some(Marked(frames, key) + [Frame(key, ExecutionScope)])
    case Done(key) =>
      if frames != [] && frames[|frames| - 1] == Frame(key, ExecutionScope) then Some(frames[..|frames| - 1]) else None
    case Answer(key, disposition, cause) =>
      if frames != [] && frames[|frames| - 1].key == key then
        match frames[|frames| - 1].kind
        case RequestScope(executed, asked) =>
          if HonestDisposition(disposition, executed) && asked == cause then Some(frames[..|frames| - 1]) else None
        case ExecutionScope => None
      else None
  }

  function AdvanceAll(frames: seq<Frame>, shapes: seq<Shape>): Option<seq<Frame>> {
    if shapes == [] then Some(frames)
    else match AdvanceAll(frames, shapes[..|shapes| - 1])
         case Some(reached) => Advance(reached, shapes[|shapes| - 1])
         case None => None
  }

  lemma {:induction false} AdvanceConcat(frames: seq<Frame>, a: seq<Shape>, b: seq<Shape>)
    ensures AdvanceAll(frames, a + b) ==
      match AdvanceAll(frames, a) case Some(reached) => AdvanceAll(reached, b) case None => None
  {
    hide Advance;
    if b == [] {
      assert a + b == a;
    } else {
      var n := |b| - 1;
      AdvanceConcat(frames, a, b[..n]);
      assert (a + b)[..|a + b| - 1] == a + b[..n];
    }
  }

  // ---------------------------------------------------------------- grammar to stack

  /** What complete work leaves of the stack below it: at most a mark that it was executed. */
  function MarkedBy(frames: seq<Frame>, activities: seq<Activity>): seq<Frame> {
    if frames != [] && Executes(activities, frames[|frames| - 1].key) then Marked(frames, frames[|frames| - 1].key)
    else frames
  }

  lemma ExecutesAppend(activities: seq<Activity>, activity: Activity, key: QueryKey)
    ensures Executes(activities + [activity], key)
       <==> Executes(activities, key) || (activity.Executing? && activity.key == key)
  {
    var longer := activities + [activity];
    assert longer[|activities|] == activity;
    assert forall i :: 0 <= i < |activities| ==> longer[i] == activities[i];
  }

  lemma AdvanceOne(frames: seq<Frame>, shape: Shape)
    ensures AdvanceAll(frames, [shape]) == Advance(frames, shape)
  {
    assert [shape][..0] == [];
  }

  lemma AdvanceAround(frames: seq<Frame>, first: Shape, inside: seq<Frame>, middle: seq<Shape>, reached: seq<Frame>,
                      last: Shape)
    requires Advance(frames, first) == Some(inside) && AdvanceAll(inside, middle) == Some(reached)
    ensures AdvanceAll(frames, [first] + middle + [last]) == Advance(reached, last)
  {
    hide Advance;
    AdvanceOne(frames, first);
    AdvanceConcat(frames, [first], middle);
    AdvanceConcat(frames, [first] + middle, [last]);
    AdvanceOne(reached, last);
  }

  lemma {:induction false} AdvanceActivity(frames: seq<Frame>, activity: Activity)
    requires Honest(activity)
    ensures AdvanceAll(frames, Shapes(activity)) ==
      Some(if activity.Executing? then Marked(frames, activity.key) else frames)
    decreases activity
  {
    hide AdvanceAll, Executes;
    match activity
    case Requesting(key, cause, disposition, inner) =>
      var inside := frames + [Frame(key, RequestScope(false, cause))];
      AdvanceActivities(inside, inner);
      var reached := frames + [Frame(key, RequestScope(Executes(inner, key), cause))];
      assert MarkedBy(inside, inner) == reached;
      AdvanceAround(frames, Ask(key, cause), inside, ShapesOfAll(inner), reached, Answer(key, disposition, cause));
      assert reached[..|reached| - 1] == frames;
    case Executing(key, inner) =>
      var inside := Marked(frames, key) + [Frame(key, ExecutionScope)];
      AdvanceActivities(inside, inner);
      AdvanceAround(frames, Begin(key), inside, ShapesOfAll(inner), inside, Done(key));
      assert inside[..|inside| - 1] == Marked(frames, key);
  }

  lemma SnocParts(activities: seq<Activity>)
    requires activities != []
    ensures ShapesOfAll(activities)
         == ShapesOfAll(activities[..|activities| - 1]) + Shapes(activities[|activities| - 1])
    ensures HonestAll(activities) <==> HonestAll(activities[..|activities| - 1]) && Honest(activities[|activities| - 1])
  {
  }

  lemma NothingDone(frames: seq<Frame>)
    ensures AdvanceAll(frames, ShapesOfAll([])) == Some(MarkedBy(frames, []))
  {
  }

  lemma {:induction false} AdvanceActivities(frames: seq<Frame>, activities: seq<Activity>)
    requires HonestAll(activities)
    ensures AdvanceAll(frames, ShapesOfAll(activities)) == Some(MarkedBy(frames, activities))
    decreases activities
  {
    hide *;
    if activities == [] {
      NothingDone(frames);
    } else {
      var n := |activities| - 1;
      SnocParts(activities);
      AdvanceActivities(frames, activities[..n]);
      AdvanceActivity(MarkedBy(frames, activities[..n]), activities[n]);
      AdvanceConcat(frames, ShapesOfAll(activities[..n]), Shapes(activities[n]));
      MarkedAppend(frames, activities[..n], activities[n]);
      assert activities == activities[..n] + [activities[n]];
    }
  }

  lemma MarkedAppend(frames: seq<Frame>, activities: seq<Activity>, activity: Activity)
    ensures MarkedBy(frames, activities + [activity]) ==
      if activity.Executing? then Marked(MarkedBy(frames, activities), activity.key) else MarkedBy(frames, activities)
  {
    hide Executes;
    if frames != [] {
      ExecutesAppend(activities, activity, frames[|frames| - 1].key);
    }
  }

  // ---------------------------------------------------------------- stack to grammar

  /** Work in progress: what is complete at the innermost level, and what encloses it. */
  datatype Zipper =
    | Ground(done: seq<Activity>)
    | Under(outer: Zipper, key: QueryKey, request: bool, cause: Option<RequestCause>, done: seq<Activity>)

  function Opening(z: Zipper): Shape
    requires z.Under?
  {
    if z.request then Ask(z.key, z.cause) else Begin(z.key)
  }

  function ZipperShapes(z: Zipper): seq<Shape> {
    match z
    case Ground(done) => ShapesOfAll(done)
    case Under(outer, _, _, _, done) => ZipperShapes(outer) + [Opening(z)] + ShapesOfAll(done)
  }

  function ZipperFrames(z: Zipper): seq<Frame> {
    match z
    case Ground(_) => []
    case Under(outer, key, request, cause, done) =>
      if request then ZipperFrames(outer) + [Frame(key, RequestScope(Executes(done, key), cause))]
      else Marked(ZipperFrames(outer), key) + [Frame(key, ExecutionScope)]
  }

  ghost predicate HonestZipper(z: Zipper) {
    HonestAll(z.done) && (z.Under? ==> HonestZipper(z.outer))
  }

  function Add(z: Zipper, activity: Activity): Zipper {
    z.(done := z.done + [activity])
  }

  function Grow(z: Zipper, shape: Shape): Zipper {
    match shape
    case Ask(key, cause) => Under(z, key, true, cause, [])
    case Begin(key) => Under(z, key, false, None, [])
    case Done(key) => if z.Under? then Add(z.outer, Executing(z.key, z.done)) else z
    case Answer(key, disposition, cause) =>
      if z.Under? then Add(z.outer, Requesting(z.key, z.cause, disposition, z.done)) else z
  }

  lemma ShapesSnoc(activities: seq<Activity>, activity: Activity)
    ensures ShapesOfAll(activities + [activity]) == ShapesOfAll(activities) + Shapes(activity)
    ensures HonestAll(activities + [activity]) <==> HonestAll(activities) && Honest(activity)
  {
    hide Shapes, Honest;
    assert (activities + [activity])[..|activities|] == activities;
  }

  lemma {:induction false} AddWork(z: Zipper, activity: Activity)
    ensures ZipperShapes(Add(z, activity)) == ZipperShapes(z) + Shapes(activity)
    ensures HonestZipper(z) && Honest(activity) ==> HonestZipper(Add(z, activity))
  {
    hide Shapes, ShapesOfAll, Honest, HonestAll, Executes;
    ShapesSnoc(z.done, activity);
    match z
    case Ground(_) =>
    case Under(outer, _, _, _, done) =>
      var before := ZipperShapes(outer) + [Opening(z)];
      assert Opening(Add(z, activity)) == Opening(z);
      assert before + (ShapesOfAll(done) + Shapes(activity)) == (before + ShapesOfAll(done)) + Shapes(activity);
  }

  lemma {:induction false} AddShapes(z: Zipper, activity: Activity)
    ensures ZipperShapes(Add(z, activity)) == ZipperShapes(z) + Shapes(activity)
    ensures HonestZipper(z) && Honest(activity) ==> HonestZipper(Add(z, activity))
    ensures ZipperFrames(Add(z, activity)) ==
      if activity.Executing? then Marked(ZipperFrames(z), activity.key) else ZipperFrames(z)
  {
    hide Shapes, ShapesOfAll, Honest, HonestAll, Executes, ZipperShapes, HonestZipper;
    AddWork(z, activity);
    if z.Under? {
      ExecutesAppend(z.done, activity, z.key);
    }
  }

  lemma TopOfZipper(z: Zipper)
    ensures ZipperFrames(z) == [] <==> z.Ground?
    ensures z.Under? ==>
      ZipperFrames(z)[|ZipperFrames(z)| - 1]
        == Frame(z.key, if z.request then RequestScope(Executes(z.done, z.key), z.cause) else ExecutionScope)
  {
    hide Executes, Marked;
  }

  lemma OpenStep(z: Zipper, shape: Shape)
    requires HonestZipper(z) && (shape.Ask? || shape.Begin?)
    ensures HonestZipper(Grow(z, shape))
    ensures ZipperShapes(Grow(z, shape)) == ZipperShapes(z) + [shape]
    ensures Advance(ZipperFrames(z), shape) == Some(ZipperFrames(Grow(z, shape)))
  {
    hide Marked;
    assert !Executes([], shape.key) && ShapesOfAll([]) == [] && HonestAll([]);
    var grown := Grow(z, shape);
    assert ZipperShapes(grown) == ZipperShapes(z) + [Opening(grown)] + ShapesOfAll([]);
  }

  lemma GrowStep(z: Zipper, shape: Shape)
    requires HonestZipper(z) && Advance(ZipperFrames(z), shape).Some?
    ensures HonestZipper(Grow(z, shape))
    ensures ZipperShapes(Grow(z, shape)) == ZipperShapes(z) + [shape]
    ensures Advance(ZipperFrames(z), shape) == Some(ZipperFrames(Grow(z, shape)))
  {
    hide ZipperFrames, ZipperShapes, Executes, ShapesOfAll, HonestAll, Marked;
    TopOfZipper(z);
    match shape
    case Ask(key, cause) => OpenStep(z, shape);
    case Begin(key) => OpenStep(z, shape);
    case Done(key) =>
      var activity := Executing(z.key, z.done);
      CloseStep(z, activity, shape);
    case Answer(key, disposition, cause) =>
      var activity := Requesting(z.key, z.cause, disposition, z.done);
      CloseStep(z, activity, shape);
  }

  lemma UnderZipper(z: Zipper)
    requires z.Under?
    ensures ZipperShapes(z) == ZipperShapes(z.outer) + [Opening(z)] + ShapesOfAll(z.done)
    ensures HonestZipper(z) ==> HonestZipper(z.outer)
    ensures var outer := if z.request then ZipperFrames(z.outer) else Marked(ZipperFrames(z.outer), z.key);
      ZipperFrames(z) != [] && ZipperFrames(z)[..|ZipperFrames(z)| - 1] == outer
  {
    hide Marked, ShapesOfAll, Opening;
  }

  /** Closing the innermost level moves its work one level out. */
  lemma {:induction false} CloseStep(z: Zipper, activity: Activity, last: Shape)
    requires HonestZipper(z) && z.Under? && Honest(activity)
    requires Shapes(activity) == [Opening(z)] + ShapesOfAll(z.done) + [last]
    requires activity.key == z.key && activity.Requesting? == z.request
    ensures HonestZipper(Add(z.outer, activity))
    ensures ZipperShapes(Add(z.outer, activity)) == ZipperShapes(z) + [last]
    ensures var frames := ZipperFrames(z);
      frames != [] && ZipperFrames(Add(z.outer, activity)) == frames[..|frames| - 1]
  {
    hide *;
    UnderZipper(z);
    AddShapes(z.outer, activity);
    var before, opening, done := ZipperShapes(z.outer), [Opening(z)], ShapesOfAll(z.done);
    assert (before + opening + done) + [last] == before + (opening + done + [last]);
  }

  lemma {:induction false} UnfinishedWork(shapes: seq<Shape>) returns (z: Zipper)
    requires AdvanceAll([], shapes).Some?
    ensures HonestZipper(z) && ZipperShapes(z) == shapes && AdvanceAll([], shapes) == Some(ZipperFrames(z))
  {
    if shapes == [] {
      z := Ground([]);
    } else {
      hide Advance, Grow;
      var n := |shapes| - 1;
      var front := UnfinishedWork(shapes[..n]);
      GrowStep(front, shapes[n]);
      z := Grow(front, shapes[n]);
    }
  }

  ghost predicate WellNested(shapes: seq<Shape>) {
    exists activities :: HonestAll(activities) && ShapesOfAll(activities) == shapes
  }

  /** The stack runs through and ends empty exactly on the honest, properly nested sequences. */
  lemma NestedIffAccepted(shapes: seq<Shape>)
    ensures WellNested(shapes) <==> AdvanceAll([], shapes) == Some([])
  {
    if activities :| HonestAll(activities) && ShapesOfAll(activities) == shapes {
      AdvanceActivities([], activities);
    }
    if AdvanceAll([], shapes) == Some([]) {
      var z := UnfinishedWork(shapes);
      assert z.Ground?;
    }
  }
}
