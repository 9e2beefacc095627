/** Instantiating function signatures, and what substitution leaves behind. */
module TypeSignatures {
  import opened Wrappers
  import opened TypeArena
  import opened TypeFold

  datatype SolverEligibility = Eligible | Unsupported

  datatype MethodReceiver = ByValue(mutableBinding: bool) | ByRef(mutability: Mutability)

  datatype CheckedReceiver = CheckedReceiver(ownerSelfTy: Ptr, form: MethodReceiver)

  datatype CheckedParameterEnv = CheckedParameterEnv(whereClauses: Slice, solverEligibility: SolverEligibility)

  datatype FnSig = FnSig(
    ownerGenericCount: nat, ownerSelfTy: Option<Ptr>, receiver: Option<CheckedReceiver>,
    params: Slice, ret: Ptr, parameterEnv: CheckedParameterEnv,
    methodCandidateEligibility: SolverEligibility, constCallComplete: bool)

  // ---------------------------------------------------------------- what signatures denote

  datatype PredicateTree = PredicateTree(selfTy: Tree, traitSym: Symbol, traitArgs: seq<Tree>)

  datatype EnvTree = EnvTree(predicates: seq<PredicateTree>, solverEligibility: SolverEligibility)

  datatype ReceiverTree = ReceiverTree(ownerSelfTy: Tree, form: MethodReceiver)

  datatype SigTree = SigTree(
    ownerGenericCount: nat, ownerSelfTy: Option<Tree>, receiver: Option<ReceiverTree>,
    params: seq<Tree>, ret: Tree, parameterEnv: EnvTree,
    methodCandidateEligibility: SolverEligibility, constCallComplete: bool)

  ghost predicate EnvOk(a: Arena, env: CheckedParameterEnv) {
    env.whereClauses < |a| && a[env.whereClauses].PredicatesCell?
  }

  /** A receiver comes with an owner type; the fold relies on it. */
  ghost predicate SigOk(a: Arena, sig: FnSig) {
    && (sig.ownerSelfTy.Some? ==> PtrOk(a, sig.ownerSelfTy.value, |a|))
    && (sig.receiver.Some? ==> sig.ownerSelfTy.Some? && PtrOk(a, sig.receiver.value.ownerSelfTy, |a|))
    && SliceOk(a, sig.params, |a|) && PtrOk(a, sig.ret, |a|)
    && EnvOk(a, sig.parameterEnv)
  }

  ghost function ReadPredicate(a: Arena, p: WherePredicate): PredicateTree
    requires WellFounded(a) && PredicateOk(a, p, |a|)
  {
    PredicateTree(ReadPtr(a, p.selfTy), p.traitRef.traitSym, ReadSlice(a, p.traitRef.args))
  }

  ghost function ReadPredicates(a: Arena, predicates: seq<WherePredicate>): (trees: seq<PredicateTree>)
    requires WellFounded(a) && PredicatesOk(a, predicates, |a|)
    ensures |trees| == |predicates|
  {
    if predicates == [] then []
    else
      assert PredicateOk(a, predicates[|predicates| - 1], |a|);
      ReadPredicates(a, predicates[..|predicates| - 1]) + [ReadPredicate(a, predicates[|predicates| - 1])]
  }

  ghost function ReadEnv(a: Arena, env: CheckedParameterEnv): EnvTree
    requires WellFounded(a) && EnvOk(a, env)
  {
    PredicatesCellOk(a, env.whereClauses);
    EnvTree(ReadPredicates(a, a[env.whereClauses].predicates), env.solverEligibility)
  }

  lemma PredicatesCellOk(a: Arena, s: nat)
    requires WellFounded(a) && s < |a| && a[s].PredicatesCell?
    ensures PredicatesOk(a, a[s].predicates, |a|)
  {
    assert CellOk(a, s);
    var ps := a[s].predicates;
    forall i | 0 <= i < |ps|
      ensures PredicateOk(a, ps[i], |a|)
    {
      assert PredicateOk(a, ps[i], s);
    }
  }

  ghost function ReadSig(a: Arena, sig: FnSig): SigTree
    requires WellFounded(a) && SigOk(a, sig)
  {
    SigTree(
      sig.ownerGenericCount,
      if sig.ownerSelfTy.Some? then Some(ReadPtr(a, sig.ownerSelfTy.value)) else None,
      if sig.receiver.Some? then Some(ReceiverTree(ReadPtr(a, sig.receiver.value.ownerSelfTy), sig.receiver.value.form))
      else None,
      ReadSlice(a, sig.params), ReadPtr(a, sig.ret), ReadEnv(a, sig.parameterEnv),
      sig.methodCandidateEligibility, sig.constCallComplete)
  }

  // ---------------------------------------------------------------- substitution on denotations

  ghost function SubstPredicate(env: Env, p: PredicateTree): PredicateTree {
    PredicateTree(SubstTree(env, p.selfTy), p.traitSym, SubstTrees(env, p.traitArgs))
  }

  ghost function SubstPredicates(env: Env, ps: seq<PredicateTree>): (r: seq<PredicateTree>)
    ensures |r| == |ps|
  {
    if ps == [] then [] else SubstPredicates(env, ps[..|ps| - 1]) + [SubstPredicate(env, ps[|ps| - 1])]
  }

  ghost function SubstEnv(env: Env, e: EnvTree): EnvTree {
    EnvTree(SubstPredicates(env, e.predicates), e.solverEligibility)
  }

  ghost function SubstSig(env: Env, s: SigTree): SigTree {
    s.(ownerSelfTy := if s.ownerSelfTy.Some? then Some(SubstTree(env, s.ownerSelfTy.value)) else None,
       receiver :=
         match s.receiver
         case Some(receiver) => Some(ReceiverTree(SubstTree(env, receiver.ownerSelfTy), receiver.form))
         case None => None,
       params := SubstTrees(env, s.params), ret := SubstTree(env, s.ret), parameterEnv := SubstEnv(env, s.parameterEnv))
  }

  /** The receiver re-read through the owner type, which is what folding produces. */
  ghost function ThroughOwner(s: SigTree): SigTree
    requires s.receiver.Some? ==> s.ownerSelfTy.Some?
  {
    if s.receiver.Some? then s.(receiver := Some(ReceiverTree(s.ownerSelfTy.value, s.receiver.value.form))) else s
  }

  // ---------------------------------------------------------------- folding signatures

  lemma ReadPredicateStable(a: Arena, b: Arena, p: WherePredicate)
    requires WellFounded(a) && WellFounded(b) && Grows(a, b) && PredicateOk(a, p, |a|)
    ensures PredicateOk(b, p, |b|) && ReadPredicate(b, p) == ReadPredicate(a, p)
  {
    OkInGrown(a, b);
    ReadPtrStable(a, b, p.selfTy);
    ReadSliceStable(a, b, p.traitRef.args);
  }

  lemma {:induction false} ReadPredicatesStable(a: Arena, b: Arena, ps: seq<WherePredicate>)
    requires WellFounded(a) && WellFounded(b) && Grows(a, b) && PredicatesOk(a, ps, |a|)
    ensures PredicatesOk(b, ps, |b|) && ReadPredicates(b, ps) == ReadPredicates(a, ps)
  {
    if ps != [] {
      var front, last := ps[..|ps| - 1], ps[|ps| - 1];
      assert PredicateOk(a, last, |a|);
      ReadPredicatesStable(a, b, front);
      ReadPredicateStable(a, b, last);
      forall i | 0 <= i < |ps|
        ensures PredicateOk(b, ps[i], |b|)
      {
        assert i < |front| ==> PredicateOk(b, front[i], |b|);
      }
    }
  }

  method FoldWherePredicate(folder: Substitute, p: WherePredicate) returns (folded: WherePredicate)
    requires folder.Ready() && PredicateOk(folder.source.cells, p, |folder.source.cells|)
    modifies folder.target
    ensures folder.Extended(old(folder.target.cells))
    ensures PredicateOk(folder.target.cells, folded, |folder.target.cells|)
    ensures ReadPredicate(folder.target.cells, folded)
         == SubstPredicate(folder.CurrentEnv(), ReadPredicate(folder.source.cells, p))
  {
    hide WellFounded;
    ghost var before := folder.target.cells;
    var selfTy := folder.FoldPtr(p.selfTy);
    ghost var middle := folder.target.cells;
    var traitRef := folder.FoldTraitRef(p.traitRef);
    GrowsTransitive(before, middle, folder.target.cells);
    ReadPtrStable(middle, folder.target.cells, selfTy);
    folded := WherePredicate(selfTy, traitRef);
  }

  method FoldParameterEnv(folder: Substitute, env: CheckedParameterEnv) returns (folded: CheckedParameterEnv)
    requires folder.Ready() && EnvOk(folder.source.cells, env)
    modifies folder.target
    ensures folder.Extended(old(folder.target.cells))
    ensures EnvOk(folder.target.cells, folded)
    ensures ReadEnv(folder.target.cells, folded) == SubstEnv(folder.CurrentEnv(), ReadEnv(folder.source.cells, env))
  {
    hide WellFounded, SubstOk, EnvOf, Grows, ReadPredicate, SubstPredicate, PredicateOk;
    PredicatesCellOk(folder.source.cells, env.whereClauses);
    var source := folder.source.cells[env.whereClauses].predicates;
    var predicates: seq<WherePredicate> := [];
    ghost var before := folder.target.cells;
    GrowsNothing(before);
    for i := 0 to |source|
      invariant folder.Extended(before)
      invariant |predicates| == i && PredicatesOk(folder.target.cells, predicates, |folder.target.cells|)
      invariant PredicatesOk(folder.source.cells, source[..i], |folder.source.cells|)
      invariant ReadPredicates(folder.target.cells, predicates)
             == SubstPredicates(EnvOf(before, folder.subst), ReadPredicates(folder.source.cells, source[..i]))
    {
      assert PredicateOk(folder.source.cells, source[i], |folder.source.cells|);
      ghost var middle := folder.target.cells;
      var p := FoldWherePredicate(folder, source[i]);
      GrowsTransitive(before, middle, folder.target.cells);
      ReadPredicatesStable(middle, folder.target.cells, predicates);
      assert (predicates + [p])[..i] == predicates;
      assert source[..i + 1][..i] == source[..i];
      predicates := predicates + [p];
    }
    assert source[..|source|] == source;
    ghost var filled := folder.target.cells;
    var whereClauses := folder.target.AllocPredicates(predicates);
    EnvStable(filled, folder.target.cells, folder.subst);
    GrowsTransitive(before, filled, folder.target.cells);
    ReadPredicatesStable(filled, folder.target.cells, predicates);
    folded := CheckedParameterEnv(whereClauses, env.solverEligibility);
  }

  lemma EnvReadStable(a: Arena, b: Arena, env: CheckedParameterEnv)
    requires WellFounded(a) && WellFounded(b) && Grows(a, b) && EnvOk(a, env)
    ensures EnvOk(b, env) && ReadEnv(b, env) == ReadEnv(a, env)
  {
    OkInGrown(a, b);
    PredicatesCellOk(a, env.whereClauses);
    ReadPredicatesStable(a, b, a[env.whereClauses].predicates);
  }

  method FoldOwner(folder: Substitute, owner: Option<Ptr>) returns (folded: Option<Ptr>)
    requires folder.Ready() && (owner.Some? ==> PtrOk(folder.source.cells, owner.value, |folder.source.cells|))
    modifies folder.target
    ensures folder.Extended(old(folder.target.cells))
    ensures folded.Some? <==> owner.Some?
    ensures folded.Some? ==> PtrOk(folder.target.cells, folded.value, |folder.target.cells|)
    ensures folded.Some? ==>
      ReadPtr(folder.target.cells, folded.value)
      == SubstTree(folder.CurrentEnv(), ReadPtr(folder.source.cells, owner.value))
  {
    folded := None;
    if owner.Some? {
      var p := folder.FoldPtr(owner.value);
      folded := Some(p);
    }
  }

  /** Folding a signature is substitution on its denotation; the receiver's type is
      re-derived from the owner type, and everything older in the target is untouched. */
  method FoldFnSig(folder: Substitute, sig: FnSig) returns (folded: FnSig)
    requires folder.Ready() && SigOk(folder.source.cells, sig)
    modifies folder.target
    ensures folder.Extended(old(folder.target.cells))
    ensures SigOk(folder.target.cells, folded)
    ensures ReadSig(folder.target.cells, folded)
         == SubstSig(folder.CurrentEnv(), ThroughOwner(ReadSig(folder.source.cells, sig)))
  {
    hide WellFounded, SubstOk, EnvOf, ReadSlice, ReadPtr, ReadEnv, SubstTree, SubstTrees, SubstEnv, TyOk, PtrOk,
      SliceOk, EnvOk;
    ghost var a0 := folder.target.cells;
    var owner := FoldOwner(folder, sig.ownerSelfTy);
    ghost var a1 := folder.target.cells;
    var receiver := if sig.receiver.Some? then Some(CheckedReceiver(owner.value, sig.receiver.value.form)) else None;
    var params := folder.FoldPtrSlice(sig.params);
    ghost var a2 := folder.target.cells;
    var ret := folder.FoldPtr(sig.ret);
    ghost var a3 := folder.target.cells;
    var parameterEnv := FoldParameterEnv(folder, sig.parameterEnv);
    ghost var a4 := folder.target.cells;
    GrowsTransitive(a2, a3, a4);
    GrowsTransitive(a1, a2, a4);
    GrowsTransitive(a0, a1, a4);
    if owner.Some? {
      ReadPtrStable(a1, a4, owner.value);
    }
    ReadSliceStable(a2, a4, params);
    ReadPtrStable(a3, a4, ret);
    folded := FnSig(sig.ownerGenericCount, owner, receiver, params, ret, parameterEnv,
                    sig.methodCandidateEligibility, sig.constCallComplete);
  }

  /** Folding is plain substitution exactly when the receiver's and the owner's types substitute alike. */
  lemma ReceiverAgreement(env: Env, s: SigTree)
    requires s.receiver.Some? ==> s.ownerSelfTy.Some?
    ensures SubstSig(env, ThroughOwner(s)) == SubstSig(env, s) <==>
      (s.receiver.Some? ==> SubstTree(env, s.ownerSelfTy.value) == SubstTree(env, s.receiver.value.ownerSelfTy))
  {
    hide SubstTree, SubstTrees, SubstEnv;
    if s.receiver.Some? {
      var direct, through := SubstSig(env, s), SubstSig(env, ThroughOwner(s));
      assert direct.receiver.value.form == through.receiver.value.form;
      assert direct == through.(receiver := direct.receiver);
    }
  }

  // ---------------------------------------------------------------- instantiation

  function TypeParams(generics: seq<GenericParam>): seq<GenericParam> {
    if generics == [] then []
    else
      var front, last := generics[..|generics| - 1], generics[|generics| - 1];
      TypeParams(front) + if last.kind.TypeKind? then [last] else []
  }

  ghost function Zipped(params: seq<GenericParam>, args: seq<Ty>): map<GenericParam, SubstTarget> {
    if params == [] then map[]
    else
      var rest := Zipped(params[..|params| - 1], args);
      if |params| <= |args| then rest[params[|params| - 1] := TyTarget(args[|params| - 1])] else rest
  }

  /** Lifetime and constant generics are skipped in the positional match; surplus arguments are ignored. */
  method BuildTypeSubstMap(generics: seq<GenericParam>, args: seq<Ty>) returns (subst: map<GenericParam, SubstTarget>)
    ensures subst == Zipped(TypeParams(generics), args)
  {
    subst := map[];
    var next := 0;
    for i := 0 to |generics|
      invariant next == |TypeParams(generics[..i])|
      invariant subst == Zipped(TypeParams(generics[..i]), args)
    {
      assert generics[..i + 1][..i] == generics[..i];
      if generics[i].kind.TypeKind? {
        var params := TypeParams(generics[..i]);
        assert TypeParams(generics[..i + 1]) == params + [generics[i]];
        var longer := params + [generics[i]];
        assert longer[..|longer| - 1] == params && longer[|longer| - 1] == generics[i];
        if next < |args| {
          subst := subst[generics[i] := TyTarget(args[next])];
        }
        next := next + 1;
      } else {
        assert TypeParams(generics[..i + 1]) == TypeParams(generics[..i]);
      }
    }
    assert generics[..|generics|] == generics;
  }

  /** Type parameters are picked out in order; the other kinds are left out. */
  lemma {:induction false} TypeParamsPickOut(a: seq<GenericParam>, b: seq<GenericParam>, generic: GenericParam)
    ensures TypeParams(a + b) == TypeParams(a) + TypeParams(b)
    ensures TypeParams([generic]) == if generic.kind == TypeKind then [generic] else []
  {
    assert [generic][..0] == [];
    if b == [] {
      assert a + b == a;
    } else {
      var n := |b| - 1;
      TypeParamsPickOut(a, b[..n], generic);
      assert (a + b)[..|a + b| - 1] == a + b[..n];
    }
  }

  /** Position by position: a parameter stands for the argument at its last place in the list. */
  lemma {:induction false} ZippedAt(params: seq<GenericParam>, args: seq<Ty>, i: nat)
    requires i < |params| && i < |args| && forall j :: i < j < |params| && j < |args| ==> params[j] != params[i]
    ensures params[i] in Zipped(params, args) && Zipped(params, args)[params[i]] == TyTarget(args[i])
    decreases |params|
  {
    if i < |params| - 1 {
      ZippedAt(params[..|params| - 1], args, i);
    }
  }

  lemma {:induction false} ZippedIs(params: seq<GenericParam>, args: seq<Ty>)
    ensures forall p :: p in Zipped(params, args) <==> exists i :: 0 <= i < |params| && i < |args| && params[i] == p
    ensures forall p :: p in Zipped(params, args) ==>
      Zipped(params, args)[p].TyTarget? && Zipped(params, args)[p].ty in args
  {
    if params != [] {
      var front := params[..|params| - 1];
      ZippedIs(front, args);
      assert forall i :: 0 <= i < |front| ==> front[i] == params[i];
    }
  }

  method InstantiateFnSig(source: Stash, target: Stash, generics: seq<GenericParam>, sig: FnSig, args: seq<Ty>)
    returns (folded: FnSig, folder: Substitute)
    requires source != target && source.Valid() && target.Valid() && SigOk(source.cells, sig)
    requires forall i :: 0 <= i < |args| ==> TyOk(target.cells, args[i], |target.cells|)
    modifies target
    ensures target.Valid() && Grows(old(target.cells), target.cells) && SigOk(target.cells, folded)
    ensures folder.subst == Zipped(TypeParams(generics), args) && SubstOk(old(target.cells), folder.subst)
    ensures ReadSig(target.cells, folded)
         == SubstSig(EnvOf(old(target.cells), folder.subst), ThroughOwner(ReadSig(source.cells, sig)))
  {
    var subst := BuildTypeSubstMap(generics, args);
    ZippedIs(TypeParams(generics), args);
    folder := new Substitute(source, target, subst);
    folded := FoldFnSig(folder, sig);
  }

  // ---------------------------------------------------------------- which parameters remain

  /** Type parameters of a tree. Array lengths are constants and are not counted. */
  ghost function ParamsOf(t: Tree): set<GenericParam>
    decreases t, 1
  {
    match t
    case TParam(p) => {p}
    case TAdt(_, args) => ParamsOfAll(args)
    case TNamed(_, args) => ParamsOfAll(args)
    case TAssociated(_, selfTy, _, traitArgs, args) => ParamsOf(selfTy) + ParamsOfAll(traitArgs) + ParamsOfAll(args)
    case TOpaque(_, args) => ParamsOfAll(args)
    case TRef(inner, _, _) => ParamsOf(inner)
    case TTuple(elems) => ParamsOfAll(elems)
    case TSlice(inner) => ParamsOf(inner)
    case TArray(inner, _) => ParamsOf(inner)
    case TFnPtr(params, ret) => ParamsOfAll(params) + ParamsOf(ret)
    case TLeaf(_) => {}
  }

  ghost function ParamsOfAll(ts: seq<Tree>): set<GenericParam>
    decreases ts, 0
  {
    if ts == [] then {}
    else
      assert ts[|ts| - 1] in ts;
      ParamsOfAll(ts[..|ts| - 1]) + ParamsOf(ts[|ts| - 1])
  }

  /** The parameters substitution leaves: those not mapped, and those of the arguments used. */
  ghost predicate Remains(env: Env, params: set<GenericParam>, q: GenericParam) {
    (q in params && q !in env) || exists p :: p in params && p in env && q in ParamsOf(env[p])
  }

  lemma {:induction false} ParamsAfterSubst(env: Env, t: Tree, q: GenericParam)
    ensures q in ParamsOf(SubstTree(env, t)) <==> Remains(env, ParamsOf(t), q)
    decreases t, 2
  {
    if t.TParam? {
      assert ParamsOf(t) == {t.param};
    } else {
      hide SubstChildren, ParamsOf;
      ParamsAfterSubstChildren(env, t, q);
    }
  }

  lemma {:induction false} ParamsAfterSubstChildren(env: Env, t: Tree, q: GenericParam)
    requires !t.TParam?
    ensures q in ParamsOf(SubstChildren(env, t)) <==> Remains(env, ParamsOf(t), q)
    decreases t, 1
  {
    RemainsNothing(env, q);
    hide Remains, SubstTree, SubstTrees, ParamsOfAll;
    match t
    case TAdt(_, args) => ParamsAfterSubstAll(env, args, q);
    case TNamed(_, args) => ParamsAfterSubstAll(env, args, q);
    case TAssociated(_, selfTy, _, traitArgs, args) =>
      ParamsAfterSubst(env, selfTy, q);
      ParamsAfterSubstAll(env, traitArgs, q);
      ParamsAfterSubstAll(env, args, q);
      RemainsUnion(env, ParamsOf(selfTy), ParamsOfAll(traitArgs), q);
      RemainsUnion(env, ParamsOf(selfTy) + ParamsOfAll(traitArgs), ParamsOfAll(args), q);
    case TOpaque(_, args) => ParamsAfterSubstAll(env, args, q);
    case TRef(inner, _, _) => ParamsAfterSubst(env, inner, q);
    case TTuple(elems) => ParamsAfterSubstAll(env, elems, q);
    case TSlice(inner) => ParamsAfterSubst(env, inner, q);
    case TArray(inner, _) => ParamsAfterSubst(env, inner, q);
    case TFnPtr(params, ret) =>
      ParamsAfterSubstAll(env, params, q);
      ParamsAfterSubst(env, ret, q);
      RemainsUnion(env, ParamsOfAll(params), ParamsOf(ret), q);
    case TLeaf(_) =>
  }

  lemma {:induction false} ParamsAfterSubstAll(env: Env, ts: seq<Tree>, q: GenericParam)
    ensures q in ParamsOfAll(SubstTrees(env, ts)) <==> Remains(env, ParamsOfAll(ts), q)
    decreases ts, 0
  {
    if ts != [] {
      var front, last := ts[..|ts| - 1], ts[|ts| - 1];
      assert last in ts;
      ParamsAfterSubstAll(env, front, q);
      ParamsAfterSubst(env, last, q);
      var r := SubstTrees(env, ts);
      assert r[..|r| - 1] == SubstTrees(env, front);
    }
  }

  ghost function ParamsOfPredicates(ps: seq<PredicateTree>): set<GenericParam> {
    if ps == [] then {}
    else ParamsOfPredicates(ps[..|ps| - 1]) + ParamsOf(ps[|ps| - 1].selfTy) + ParamsOfAll(ps[|ps| - 1].traitArgs)
  }

  ghost function ParamsOfSig(s: SigTree): set<GenericParam> {
    OwnerParams(s) + ReceiverParams(s) + ParamsOfAll(s.params) + ParamsOf(s.ret)
      + ParamsOfPredicates(s.parameterEnv.predicates)
  }

  ghost function OwnerParams(s: SigTree): set<GenericParam> {
    if s.ownerSelfTy.Some? then ParamsOf(s.ownerSelfTy.value) else {}
  }

  ghost function ReceiverParams(s: SigTree): set<GenericParam> {
    if s.receiver.Some? then ParamsOf(s.receiver.value.ownerSelfTy) else {}
  }

  lemma {:induction false} ParamsAfterSubstPredicates(env: Env, ps: seq<PredicateTree>, q: GenericParam)
    ensures q in ParamsOfPredicates(SubstPredicates(env, ps)) <==> Remains(env, ParamsOfPredicates(ps), q)
  {
    if ps != [] {
      var front, last := ps[..|ps| - 1], ps[|ps| - 1];
      ParamsAfterSubstPredicates(env, front, q);
      ParamsAfterSubst(env, last.selfTy, q);
      ParamsAfterSubstAll(env, last.traitArgs, q);
      var r := SubstPredicates(env, ps);
      assert r[..|r| - 1] == SubstPredicates(env, front);
    }
  }

  /** Exactly which type parameters an instantiated signature mentions. */
  lemma ParamsAfterSubstSig(env: Env, s: SigTree, q: GenericParam)
    ensures q in ParamsOfSig(SubstSig(env, s)) <==> Remains(env, ParamsOfSig(s), q)
  {
    hide Remains, ParamsOf, ParamsOfAll, ParamsOfPredicates, SubstTree, SubstTrees, SubstPredicates;
    var owner := OwnerParams(s);
    var receiver := ReceiverParams(s);
    var params, ret, predicates :=
      ParamsOfAll(s.params), ParamsOf(s.ret), ParamsOfPredicates(s.parameterEnv.predicates);
    RemainsNothing(env, q);
    if s.ownerSelfTy.Some? {
      ParamsAfterSubst(env, s.ownerSelfTy.value, q);
    }
    if s.receiver.Some? {
      ParamsAfterSubst(env, s.receiver.value.ownerSelfTy, q);
    }
    ParamsAfterSubstAll(env, s.params, q);
    ParamsAfterSubst(env, s.ret, q);
    ParamsAfterSubstPredicates(env, s.parameterEnv.predicates, q);
    RemainsUnion(env, owner + receiver + params + ret, predicates, q);
    RemainsUnion(env, owner + receiver + params, ret, q);
    RemainsUnion(env, owner + receiver, params, q);
    RemainsUnion(env, owner, receiver, q);
  }

  lemma RemainsNothing(env: Env, q: GenericParam)
    ensures !Remains(env, {}, q)
  {
  }

  lemma RemainsUnion(env: Env, a: set<GenericParam>, b: set<GenericParam>, q: GenericParam)
    ensures Remains(env, a + b, q) <==> Remains(env, a, q) || Remains(env, b, q)
  {
    hide ParamsOf;
    if Remains(env, a, q) && q !in a {
      var p :| p in a && p in env && q in ParamsOf(env[p]);
      assert p in a + b;
    }
    if Remains(env, b, q) && q !in b {
      var p :| p in b && p in env && q in ParamsOf(env[p]);
      assert p in a + b;
    }
  }

  /** One closed argument per type parameter removes every type parameter of the
      binder, from receiver, parameters, result and where clauses alike. */
  lemma {:induction false} InstantiationIsClosed(a: Arena, generics: seq<GenericParam>, args: seq<Ty>, s: SigTree,
                                                 q: GenericParam)
    requires WellFounded(a) && SubstOk(a, Zipped(TypeParams(generics), args))
    requires |args| >= |TypeParams(generics)|
    requires forall arg :: arg in args && TyOk(a, arg, |a|) ==>
      ParamsOf(ReadTy(a, |a|, arg)) !! (set g | g in TypeParams(generics))
    requires q in TypeParams(generics)
    ensures q !in ParamsOfSig(SubstSig(EnvOf(a, Zipped(TypeParams(generics), args)), s))
  {
    var params := TypeParams(generics);
    var env := EnvOf(a, Zipped(params, args));
    ZippedIs(params, args);
    ParamsAfterSubstSig(env, s, q);
    var i :| 0 <= i < |params| && params[i] == q;
    assert q in Zipped(params, args);
  }

  // ---------------------------------------------------------------- substituting twice

  ghost function Compose(outer: Env, inner: Env): Env {
    map p | p in outer.Keys + inner.Keys :: if p in inner then SubstTree(outer, inner[p]) else outer[p]
  }

  lemma ComposedParam(outer: Env, inner: Env)
    ensures forall p :: p in Compose(outer, inner) <==> p in outer || p in inner
    ensures forall p :: p in inner ==> Compose(outer, inner)[p] == SubstTree(outer, inner[p])
    ensures forall p :: p in outer && p !in inner ==> Compose(outer, inner)[p] == outer[p]
  {
  }

  /** Instantiating in two steps is instantiating once with the composed map. */
  lemma {:induction false} SubstComposes(outer: Env, inner: Env, t: Tree)
    ensures SubstTree(outer, SubstTree(inner, t)) == SubstTree(Compose(outer, inner), t)
    decreases t, 2
  {
    ComposedParam(outer, inner);
    hide Compose, SubstChildren;
    if t.TParam? {
      KeepsShape(inner, t);
      KeepsShape(outer, t);
      KeepsShape(Compose(outer, inner), t);
    } else {
      SubstComposesChildren(outer, inner, t);
      KeepsShape(inner, t);
    }
  }

  lemma KeepsShape(env: Env, t: Tree)
    ensures t.TParam? ==> SubstChildren(env, t) == t
    ensures !t.TParam? ==> !SubstChildren(env, t).TParam?
  {
  }

  lemma {:induction false} SubstComposesChildren(outer: Env, inner: Env, t: Tree)
    requires !t.TParam?
    ensures SubstChildren(outer, SubstChildren(inner, t)) == SubstChildren(Compose(outer, inner), t)
    decreases t, 1
  {
    hide Compose, SubstTree, SubstTrees;
    match t
    case TAdt(_, args) => SubstComposesAll(outer, inner, args);
    case TNamed(_, args) => SubstComposesAll(outer, inner, args);
    case TAssociated(_, selfTy, _, traitArgs, args) =>
      SubstComposes(outer, inner, selfTy);
      SubstComposesAll(outer, inner, traitArgs);
      SubstComposesAll(outer, inner, args);
    case TOpaque(_, args) => SubstComposesAll(outer, inner, args);
    case TRef(inner_, _, _) => SubstComposes(outer, inner, inner_);
    case TTuple(elems) => SubstComposesAll(outer, inner, elems);
    case TSlice(inner_) => SubstComposes(outer, inner, inner_);
    case TArray(inner_, _) => SubstComposes(outer, inner, inner_);
    case TFnPtr(params, ret) =>
      SubstComposesAll(outer, inner, params);
      SubstComposes(outer, inner, ret);
    case TLeaf(_) =>
  }

  lemma {:induction false} SubstComposesAll(outer: Env, inner: Env, ts: seq<Tree>)
    ensures SubstTrees(outer, SubstTrees(inner, ts)) == SubstTrees(Compose(outer, inner), ts)
    decreases ts, 0
  {
    if ts != [] {
      var front, last := ts[..|ts| - 1], ts[|ts| - 1];
      assert last in ts;
      SubstComposesAll(outer, inner, front);
      SubstComposes(outer, inner, last);
      var r := SubstTrees(inner, ts);
      assert r[..|r| - 1] == SubstTrees(inner, front);
    }
  }
}
