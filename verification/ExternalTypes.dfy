/** Applying an external nominal type's declaration: explicit arguments in order,
    then declared defaults. */
module ExternalTypes {
  import opened Wrappers
  import opened TypeArena
  import opened TypeFold
  import opened TypeSignatures

  datatype GenericDefault = Absent | DefaultType(ty: Ptr) | UnsupportedDefault

  datatype AdtSignature = AdtSignature(
    generics: seq<GenericParam>, defaults: seq<GenericDefault>, parameterEnv: CheckedParameterEnv,
    ordinaryComplete: bool, deferredComplete: bool)

  datatype ApplyError = MetadataUnavailable | IncorrectTypeArgumentCount

  datatype Applied = Applied(args: Slice, parameterEnv: CheckedParameterEnv, deferredComplete: bool)

  ghost predicate SignatureOk(a: Arena, signature: AdtSignature) {
    && EnvOk(a, signature.parameterEnv)
    && forall i :: 0 <= i < |signature.defaults| && signature.defaults[i].DefaultType? ==>
         PtrOk(a, signature.defaults[i].ty, |a|)
  }

  // ---------------------------------------------------------------- reference

  /** A type parameter of the declaration and its default, in declaration order. */
  datatype Slot = Slot(param: GenericParam, default: GenericDefault)

  function Slots(generics: seq<GenericParam>, defaults: seq<GenericDefault>): (slots: seq<Slot>)
    requires |generics| == |defaults|
    ensures |slots| == |TypeParams(generics)|
    ensures forall k :: 0 <= k < |slots| ==> slots[k].default in defaults
  {
    if generics == [] then []
    else
      var n := |generics| - 1;
      Slots(generics[..n], defaults[..n]) + if generics[n].kind.TypeKind? then [Slot(generics[n], defaults[n])] else []
  }

  /** `ix` names the declared generics the slots stand for. */
  ghost predicate SlotsStand(generics: seq<GenericParam>, defaults: seq<GenericDefault>, slots: seq<Slot>,
                             ix: seq<nat>) {
    && |ix| == |slots|
    && (forall k, l :: 0 <= k < l < |ix| ==> ix[k] < ix[l])
    && (forall k :: 0 <= k < |ix| ==>
          ix[k] < |generics| && ix[k] < |defaults| && slots[k] == Slot(generics[ix[k]], defaults[ix[k]]))
    && (forall i :: 0 <= i < |generics| ==> (i in ix <==> generics[i].kind == TypeKind))
  }

  /** One slot per declared type parameter, in order, each with its own default. */
  lemma {:induction false} SlotsStandInOrder(generics: seq<GenericParam>, defaults: seq<GenericDefault>)
    returns (ix: seq<nat>)
    requires |generics| == |defaults|
    ensures SlotsStand(generics, defaults, Slots(generics, defaults), ix)
  {
    ix := [];
    if generics != [] {
      var n := |generics| - 1;
      ix := SlotsStandInOrder(generics[..n], defaults[..n]);
      if generics[n].kind == TypeKind {
        var longer := ix + [n];
        assert forall i :: i in longer <==> i in ix || i == n;
        ix := longer;
      }
    }
  }

  /** The parameters left of position `|trees|`, bound to their arguments. */
  ghost function LeftEnv(slots: seq<Slot>, trees: seq<Tree>): Env
    requires |trees| <= |slots|
  {
    if trees == [] then map[]
    else LeftEnv(slots, trees[..|trees| - 1])[slots[|trees| - 1].param := trees[|trees| - 1]]
  }

  /** `trees` are the arguments of the first `|trees|` slots: explicit ones first,
      then each default with every parameter to its left substituted. */
  ghost predicate Arguments(a: Arena, slots: seq<Slot>, explicit: seq<Tree>, trees: seq<Tree>)
    requires WellFounded(a)
  {
    && |trees| <= |slots|
    && (forall k :: 0 <= k < |trees| && k < |explicit| ==> trees[k] == explicit[k])
    && (forall k :: |explicit| <= k < |trees| ==> DefaultAt(a, slots, trees, k))
  }

  ghost predicate DefaultAt(a: Arena, slots: seq<Slot>, trees: seq<Tree>, k: nat)
    requires WellFounded(a)
  {
    && k < |trees| <= |slots| && slots[k].default.DefaultType?
    && PtrOk(a, slots[k].default.ty, |a|)
    && trees[k] == SubstTree(LeftEnv(slots, trees[..k]), ReadPtr(a, slots[k].default.ty))
  }

  /** The reference determines every argument. */
  lemma {:induction false} ArgumentsAreUnique(a: Arena, slots: seq<Slot>, explicit: seq<Tree>, xs: seq<Tree>,
                                              ys: seq<Tree>)
    requires WellFounded(a) && Arguments(a, slots, explicit, xs) && Arguments(a, slots, explicit, ys) && |xs| == |ys|
    ensures xs == ys
  {
    if xs != [] {
      var n := |xs| - 1;
      ArgumentsPrefix(a, slots, explicit, xs);
      ArgumentsPrefix(a, slots, explicit, ys);
      ArgumentsAreUnique(a, slots, explicit, xs[..n], ys[..n]);
      if n >= |explicit| {
        assert DefaultAt(a, slots, xs, n) && DefaultAt(a, slots, ys, n);
      }
      assert xs == xs[..n] + [xs[n]] && ys == ys[..n] + [ys[n]];
    }
  }

  lemma ArgumentsPrefix(a: Arena, slots: seq<Slot>, explicit: seq<Tree>, trees: seq<Tree>)
    requires WellFounded(a) && Arguments(a, slots, explicit, trees) && trees != []
    ensures Arguments(a, slots, explicit, trees[..|trees| - 1])
  {
    var front := trees[..|trees| - 1];
    forall k | |explicit| <= k < |front|
      ensures DefaultAt(a, slots, front, k)
    {
      assert DefaultAt(a, slots, trees, k);
      assert front[..k] == trees[..k];
    }
  }

  /** A slot no explicit argument fills and no usable default either. */
  predicate Stuck(slots: seq<Slot>, given: nat, k: nat) {
    given <= k < |slots| && !slots[k].default.DefaultType?
  }

  predicate FirstStuck(slots: seq<Slot>, given: nat, k: nat) {
    Stuck(slots, given, k) && forall j :: given <= j < k ==> !Stuck(slots, given, j)
  }

  /** Exactly when application fails, and how. */
  predicate Fails(signature: Option<AdtSignature>, given: nat, error: ApplyError) {
    if signature.None? || !signature.value.ordinaryComplete
        || |signature.value.generics| != |signature.value.defaults| then
      error == MetadataUnavailable
    else
      var slots := Slots(signature.value.generics, signature.value.defaults);
      if given > |slots| then error == IncorrectTypeArgumentCount
      else exists k :: 0 <= k < |slots| && FirstStuck(slots, given, k)
             && error == if slots[k].default.Absent? then IncorrectTypeArgumentCount else MetadataUnavailable
  }

  predicate Usable(signature: Option<AdtSignature>) {
    signature.Some? && signature.value.ordinaryComplete && |signature.value.generics| == |signature.value.defaults|
  }

  // ---------------------------------------------------------------- application

  ghost function TreesOf(a: Arena, ptrs: seq<Ptr>): seq<Tree>
    requires WellFounded(a) && PtrsOk(a, ptrs, |a|)
  {
    ReadPtrs(a, |a|, ptrs)
  }

  lemma {:induction false} TreesAt(a: Arena, n: nat, ptrs: seq<Ptr>, i: nat)
    requires WellFounded(a) && PtrsOk(a, ptrs, n) && i < |ptrs|
    ensures PtrOk(a, ptrs[i], n) && ReadPtrs(a, n, ptrs)[i] == ReadPtr(a, ptrs[i])
    decreases |ptrs|
  {
    assert PtrOk(a, ptrs[i], n);
    if i < |ptrs| - 1 {
      TreesAt(a, n, ptrs[..|ptrs| - 1], i);
    }
  }

  /** The map built so far binds each handled slot to the type its argument points at. */
  ghost predicate Bound(a: Arena, slots: seq<Slot>, applied: seq<Ptr>, subst: map<GenericParam, SubstTarget>) {
    && WellFounded(a) && PtrsOk(a, applied, |a|) && |applied| <= |slots|
    && SubstOk(a, subst) && EnvOf(a, subst) == LeftEnv(slots, TreesOf(a, applied))
  }

  lemma BoundGrows(a: Arena, b: Arena, slots: seq<Slot>, applied: seq<Ptr>, subst: map<GenericParam, SubstTarget>)
    requires Bound(a, slots, applied, subst) && WellFounded(b) && Grows(a, b)
    ensures Bound(b, slots, applied, subst) && TreesOf(b, applied) == TreesOf(a, applied)
  {
    PtrsOkGrows(a, b, applied);
    ReadPtrsStable(a, b, |a|, |b|, applied);
    EnvStable(a, b, subst);
  }

  lemma BoundStep(a: Arena, slots: seq<Slot>, applied: seq<Ptr>, subst: map<GenericParam, SubstTarget>, argument: Ptr)
    requires Bound(a, slots, applied, subst) && |applied| < |slots| && PtrOk(a, argument, |a|)
    ensures Bound(a, slots, applied + [argument], subst[slots[|applied|].param := TyTarget(a[argument].ty)])
    ensures TreesOf(a, applied + [argument]) == TreesOf(a, applied) + [ReadPtr(a, argument)]
  {
    var longer := applied + [argument];
    var param := slots[|applied|].param;
    var ty := a[argument].ty;
    assert CellOk(a, argument);
    assert TyOk(a, ty, |a|);
    ReadTyStable(a, a, argument, |a|, ty);
    assert longer[..|longer| - 1] == applied && longer[|longer| - 1] == argument;
    var trees := TreesOf(a, longer);
    assert trees[..|trees| - 1] == TreesOf(a, applied);
    var subst' := subst[param := TyTarget(ty)];
    assert EnvOf(a, subst') == EnvOf(a, subst)[param := ReadPtr(a, argument)];
  }

  /** The argument for one slot: the next explicit one, or its substituted default. */
  method NextArgument(source: Stash, target: Stash, slots: seq<Slot>, explicit: seq<Ptr>, applied: seq<Ptr>,
                      subst: map<GenericParam, SubstTarget>)
    returns (result: Result<Ptr, ApplyError>)
    requires source != target && source.Valid() && target.Valid()
    requires |applied| < |slots| && PtrsOk(target.cells, explicit, |target.cells|)
    requires Bound(target.cells, slots, applied, subst)
    requires slots[|applied|].default.DefaultType? ==> PtrOk(source.cells, slots[|applied|].default.ty, |source.cells|)
    modifies target
    ensures target.Valid() && Grows(old(target.cells), target.cells)
    ensures result.Err? <==> Stuck(slots, |explicit|, |applied|)
    ensures result.Err? ==>
      result.error == if slots[|applied|].default.Absent? then IncorrectTypeArgumentCount else MetadataUnavailable
    ensures result.Ok? ==> PtrOk(target.cells, result.value, |target.cells|)
    ensures result.Ok? && |applied| < |explicit| ==> result.value == explicit[|applied|]
    ensures result.Ok? && |applied| >= |explicit| ==>
      ReadPtr(target.cells, result.value) == SubstTree(LeftEnv(slots, TreesOf(old(target.cells), applied)),
                                                       ReadPtr(source.cells, slots[|applied|].default.ty))
  {
    if |applied| < |explicit| {
      assert PtrOk(target.cells, explicit[|applied|], |target.cells|);
      return Ok(explicit[|applied|]);
    }
    match slots[|applied|].default {
      case DefaultType(ty) =>
        var folder := new Substitute(source, target, subst);
        var p := folder.FoldPtr(ty);
        result := Ok(p);
      case Absent => result := Err(IncorrectTypeArgumentCount);
      case UnsupportedDefault => result := Err(MetadataUnavailable);
    }
  }

  lemma {:induction false} ArgumentsStep(a: Arena, slots: seq<Slot>, explicit: seq<Tree>, trees: seq<Tree>, next: Tree)
    requires WellFounded(a) && Arguments(a, slots, explicit, trees) && |trees| < |slots|
    requires |trees| < |explicit| ==> next == explicit[|trees|]
    requires |trees| >= |explicit| ==> slots[|trees|].default.DefaultType? && PtrOk(a, slots[|trees|].default.ty, |a|)
    requires |trees| >= |explicit| ==> next == SubstTree(LeftEnv(slots, trees), ReadPtr(a, slots[|trees|].default.ty))
    ensures Arguments(a, slots, explicit, trees + [next])
  {
    var longer := trees + [next];
    forall k | |explicit| <= k < |longer|
      ensures DefaultAt(a, slots, longer, k)
    {
      if k < |trees| {
        assert DefaultAt(a, slots, trees, k);
        assert longer[..k] == trees[..k];
      } else {
        assert longer[..k] == trees;
      }
    }
  }

  /** The loop state after `applied`: the map is bound and the arguments are the reference ones. */
  ghost predicate SlotsDone(source: Arena, a: Arena, slots: seq<Slot>, given: seq<Tree>, applied: seq<Ptr>,
                            subst: map<GenericParam, SubstTarget>) {
    && WellFounded(source) && Bound(a, slots, applied, subst)
    && Arguments(source, slots, given, TreesOf(a, applied))
  }

  lemma SlotStep(source: Arena, before: Arena, middle: Arena, after: Arena, slots: seq<Slot>, explicit: seq<Ptr>,
                 applied: seq<Ptr>, subst: map<GenericParam, SubstTarget>, argument: Ptr)
    requires WellFounded(before) && WellFounded(after) && Grows(before, middle) && Grows(middle, after)
    requires PtrsOk(before, explicit, |before|) && |applied| < |slots| && PtrOk(after, argument, |after|)
    requires SlotsDone(source, middle, slots, TreesOf(before, explicit), applied, subst)
    requires |applied| < |explicit| ==> argument == explicit[|applied|]
    requires |applied| >= |explicit| ==>
      slots[|applied|].default.DefaultType? && PtrOk(source, slots[|applied|].default.ty, |source|)
    requires |applied| >= |explicit| ==>
      ReadPtr(after, argument)
        == SubstTree(LeftEnv(slots, TreesOf(middle, applied)), ReadPtr(source, slots[|applied|].default.ty))
    ensures SlotsDone(source, after, slots, TreesOf(before, explicit), applied + [argument],
                      subst[slots[|applied|].param := TyTarget(after[argument].ty)])
  {
    hide SubstTree, EnvOf, SubstOk, WellFounded;
    GrowsTransitive(before, middle, after);
    BoundGrows(middle, after, slots, applied, subst);
    if |applied| < |explicit| {
      PtrsOkGrows(before, after, explicit);
      ReadPtrsStable(before, after, |before|, |after|, explicit);
      TreesAt(after, |after|, explicit, |applied|);
    }
    ArgumentsStep(source, slots, TreesOf(before, explicit), TreesOf(middle, applied), ReadPtr(after, argument));
    BoundStep(after, slots, applied, subst, argument);
  }

  method ApplySlots(source: Stash, target: Stash, slots: seq<Slot>, explicit: seq<Ptr>)
    returns (result: Result<(seq<Ptr>, map<GenericParam, SubstTarget>), ApplyError>)
    requires source != target && source.Valid() && target.Valid()
    requires |explicit| <= |slots| && PtrsOk(target.cells, explicit, |target.cells|)
    requires forall k :: 0 <= k < |slots| && slots[k].default.DefaultType? ==>
      PtrOk(source.cells, slots[k].default.ty, |source.cells|)
    modifies target
    ensures target.Valid() && Grows(old(target.cells), target.cells)
    ensures result.Ok? ==>
      var (applied, subst) := result.value;
      && |applied| == |slots| && explicit <= applied
      && SlotsDone(source.cells, target.cells, slots, TreesOf(old(target.cells), explicit), applied, subst)
    ensures result.Ok? ==> forall k :: 0 <= k < |slots| ==> !Stuck(slots, |explicit|, k)
    ensures result.Err? ==> exists k ::
      && 0 <= k < |slots| && FirstStuck(slots, |explicit|, k)
      && result.error == if slots[k].default.Absent? then IncorrectTypeArgumentCount else MetadataUnavailable
  {
    hide SubstTree, EnvOf, SubstOk, WellFounded, Arguments;
    var applied: seq<Ptr> := [];
    var subst: map<GenericParam, SubstTarget> := map[];
    ghost var before := target.cells;
    ghost var given := TreesOf(before, explicit);
    StartBound(source.cells, before, slots, given);
    for i := 0 to |slots|
      invariant target.Valid() && Grows(before, target.cells)
      invariant |applied| == i && (forall k :: 0 <= k < i && k < |explicit| ==> applied[k] == explicit[k])
      invariant SlotsDone(source.cells, target.cells, slots, given, applied, subst)
      invariant forall k :: 0 <= k < i ==> !Stuck(slots, |explicit|, k)
    {
      ghost var middle := target.cells;
      PtrsOkGrows(before, middle, explicit);
      var argument := NextArgument(source, target, slots, explicit, applied, subst);
      if argument.Err? {
        assert FirstStuck(slots, |explicit|, i);
        GrowsTransitive(before, middle, target.cells);
        return Err(argument.error);
      }
      GrowsTransitive(before, middle, target.cells);
      SlotStep(source.cells, before, middle, target.cells, slots, explicit, applied, subst, argument.value);
      subst := subst[slots[i].param := TyTarget(target.cells[argument.value].ty)];
      applied := applied + [argument.value];
    }
    result := Ok((applied, subst));
  }

  lemma StartBound(source: Arena, a: Arena, slots: seq<Slot>, given: seq<Tree>)
    requires WellFounded(source) && WellFounded(a)
    ensures SlotsDone(source, a, slots, given, [], map[])
  {
  }

  /** Explicit arguments and declaration defaults in order, then the declaration's predicates. */
  method ApplyExternalAdtSignature(source: Stash, target: Stash, signature: Option<AdtSignature>, explicit: seq<Ptr>)
    returns (result: Result<Applied, ApplyError>)
    requires source != target && source.Valid() && target.Valid()
    requires PtrsOk(target.cells, explicit, |target.cells|)
    requires signature.Some? ==> SignatureOk(source.cells, signature.value)
    modifies target
    ensures target.Valid() && Grows(old(target.cells), target.cells)
    ensures forall error :: Fails(signature, |explicit|, error) <==> result == Err(error)
    ensures result.Ok? ==>
      && Usable(signature)
      && SliceOk(target.cells, result.value.args, |target.cells|) && EnvOk(target.cells, result.value.parameterEnv)
      && result.value.deferredComplete == signature.value.deferredComplete
    ensures result.Ok? ==>
      var slots := Slots(signature.value.generics, signature.value.defaults);
      var trees := ReadSlice(target.cells, result.value.args);
      && |trees| == |TypeParams(signature.value.generics)|
      && Arguments(source.cells, slots, TreesOf(old(target.cells), explicit), trees)
      && ReadEnv(target.cells, result.value.parameterEnv)
           == SubstEnv(LeftEnv(slots, trees), ReadEnv(source.cells, signature.value.parameterEnv))
  {
    hide SubstTree, SubstOk, WellFounded, EnvOk, ReadSlice, ReadEnv, SubstEnv, Arguments, PtrOk, SliceOk;
    if signature.None? || !signature.value.ordinaryComplete
        || |signature.value.generics| != |signature.value.defaults| {
      return Err(MetadataUnavailable);
    }
    var slots := Slots(signature.value.generics, signature.value.defaults);
    if |explicit| > |slots| {
      return Err(IncorrectTypeArgumentCount);
    }
    ghost var before := target.cells;
    var arguments := ApplySlots(source, target, slots, explicit);
    if arguments.Err? {
      OneFirstStuck(slots, |explicit|);
      return Err(arguments.error);
    }
    var (applied, subst) := arguments.value;
    ghost var filled := target.cells;
    var folder := new Substitute(source, target, subst);
    var parameterEnv := FoldParameterEnv(folder, signature.value.parameterEnv);
    ghost var folded := target.cells;
    BoundGrows(filled, folded, slots, applied, subst);
    var args := target.AllocSlice(applied);
    AppendGrows(folded, PtrsCell(applied));
    EnvReadStable(folded, target.cells, parameterEnv);
    GrowsTransitive(before, filled, folded);
    GrowsTransitive(before, folded, target.cells);
    result := Ok(Applied(args, parameterEnv, signature.value.deferredComplete));
  }

  lemma AppendGrows(a: Arena, cell: Cell)
    ensures Grows(a, a + [cell])
  {
  }

  lemma OneFirstStuck(slots: seq<Slot>, given: nat)
    ensures forall j, k :: 0 <= j && 0 <= k && FirstStuck(slots, given, j) && FirstStuck(slots, given, k) ==> j == k
  {
  }
}
