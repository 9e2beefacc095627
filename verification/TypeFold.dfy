/** Substituting generic parameters while copying a type from one arena to another. */
module TypeFold {
  import opened TypeArena

  datatype SubstTarget = TyTarget(ty: Ty) | ConstTarget(value: Const)

  type Env = map<GenericParam, Tree>

  // ---------------------------------------------------------------- mathematical substitution

  ghost function SubstTree(env: Env, t: Tree): Tree
    decreases t, 1
  {
    if t.TParam? && t.param in env then env[t.param] else SubstChildren(env, t)
  }

  ghost function SubstChildren(env: Env, t: Tree): Tree
    decreases t, 0
  {
    match t
    case TAdt(sym, args) => TAdt(sym, SubstTrees(env, args))
    case TNamed(def, args) => TNamed(def, SubstTrees(env, args))
    case TAssociated(associatedTy, selfTy, traitSym, traitArgs, args) =>
      TAssociated(associatedTy, SubstTree(env, selfTy), traitSym, SubstTrees(env, traitArgs), SubstTrees(env, args))
    case TOpaque(def, args) => TOpaque(def, SubstTrees(env, args))
    case TRef(inner, mutability, lifetime) => TRef(SubstTree(env, inner), mutability, lifetime)
    case TTuple(elems) => TTuple(SubstTrees(env, elems))
    case TSlice(inner) => TSlice(SubstTree(env, inner))
    case TArray(inner, length) => TArray(SubstTree(env, inner), length)
    case TFnPtr(params, ret) => TFnPtr(SubstTrees(env, params), SubstTree(env, ret))
    case TLeaf(_) => t
    case TParam(_) => t
  }

  ghost function SubstTrees(env: Env, ts: seq<Tree>): (r: seq<Tree>)
    ensures |r| == |ts|
    decreases ts, 0
  {
    if ts == [] then []
    else
      assert ts[|ts| - 1] in ts;
      SubstTrees(env, ts[..|ts| - 1]) + [SubstTree(env, ts[|ts| - 1])]
  }

  // ---------------------------------------------------------------- substitution while folding

  ghost predicate SubstOk(a: Arena, subst: map<GenericParam, SubstTarget>) {
    forall p :: p in subst && subst[p].TyTarget? ==> TyOk(a, subst[p].ty, |a|)
  }

  /** What the map's types denote in the arena they live in. Constant targets are never consulted. */
  ghost function EnvOf(a: Arena, subst: map<GenericParam, SubstTarget>): Env
    requires WellFounded(a) && SubstOk(a, subst)
  {
    map p | p in subst && subst[p].TyTarget? :: ReadTy(a, |a|, subst[p].ty)
  }

  lemma TyOkGrows(a: Arena, b: Arena, ty: Ty)
    requires Grows(a, b) && TyOk(a, ty, |a|)
    ensures TyOk(b, ty, |b|)
  {
    OkInGrown(a, b);
  }

  lemma PtrsOkGrows(a: Arena, b: Arena, ptrs: seq<Ptr>)
    requires Grows(a, b) && PtrsOk(a, ptrs, |a|)
    ensures PtrsOk(b, ptrs, |b|)
  {
    OkInGrown(a, b);
    forall i | 0 <= i < |ptrs|
      ensures PtrOk(b, ptrs[i], |b|)
    {
      assert PtrOk(a, ptrs[i], |a|);
    }
  }

  lemma EnvStable(a: Arena, b: Arena, subst: map<GenericParam, SubstTarget>)
    requires WellFounded(a) && WellFounded(b) && Grows(a, b) && SubstOk(a, subst)
    ensures SubstOk(b, subst) && EnvOf(b, subst) == EnvOf(a, subst)
  {
    forall p | p in subst && subst[p].TyTarget?
      ensures TyOk(b, subst[p].ty, |b|) && ReadTy(b, |b|, subst[p].ty) == ReadTy(a, |a|, subst[p].ty)
    {
      TyOkGrows(a, b, subst[p].ty);
      ReadTyStable(a, b, |a|, |b|, subst[p].ty);
    }
  }

  lemma GrowsNothing(a: Arena)
    ensures Grows(a, a)
  {
  }

  lemma GrowsTransitive(a: Arena, b: Arena, c: Arena)
    requires Grows(a, b) && Grows(b, c)
    ensures Grows(a, c)
  {
    assert c[..|a|] == c[..|b|][..|a|];
  }

  /** What a fold never changes: the constructor and everything in it that is not a type. */
  predicate SameShape(ty: Ty, folded: Ty) {
    match ty
    case Adt(sym, _) => folded.Adt? && folded.sym == sym
    case Alias(alias) => folded.Alias? && SameAlias(alias, folded.alias)
    case Ref(_, mutability, lifetime) =>
      folded.Ref? && folded.mutability == mutability && folded.lifetime == lifetime
    case Tuple(_) => folded.Tuple?
    case SliceOf(_) => folded.SliceOf?
    case Array(_, length) => folded.Array? && folded.length == length
    case FnPtr(_, _) => folded.FnPtr?
    case _ => folded == ty
  }

  predicate SameAlias(alias: AliasTy, folded: AliasTy) {
    match alias
    case Named(def, _) => folded.Named? && folded.def == def
    case Associated(associatedTy, _, traitRef, _) =>
      folded.Associated? && folded.associatedTy == associatedTy && folded.traitRef.traitSym == traitRef.traitSym
    case Opaque(def, _) => folded.Opaque? && folded.def == def
  }

  class Substitute {
    const source: Stash
    const target: Stash
    const subst: map<GenericParam, SubstTarget>

    constructor (source: Stash, target: Stash, subst: map<GenericParam, SubstTarget>)
      ensures this.source == source && this.target == target && this.subst == subst
    {
      this.source, this.target, this.subst := source, target, subst;
    }

    ghost predicate Ready()
      reads source, target
    {
      source != target && source.Valid() && target.Valid() && SubstOk(target.cells, subst)
    }

    ghost function CurrentEnv(): Env
      requires Ready()
      reads source, target
    {
      EnvOf(target.cells, subst)
    }

    /** The target only grew since `before`, so the map still means the same. */
    ghost predicate Extended(before: Arena)
      requires WellFounded(before) && SubstOk(before, subst)
      reads source, target
    {
      Ready() && Grows(before, target.cells) && CurrentEnv() == EnvOf(before, subst)
    }

    method FoldTy(ty: Ty, ghost n: nat) returns (folded: Ty)
      requires Ready() && TyOk(source.cells, ty, n)
      modifies target
      ensures Extended(old(target.cells))
      ensures TyOk(target.cells, folded, |target.cells|)
      ensures ReadTy(target.cells, |target.cells|, folded) == SubstTree(CurrentEnv(), ReadTy(source.cells, n, ty))
      decreases n, 2
    {
      if ty.Param? && ty.param in subst && subst[ty.param].TyTarget? {
        folded := subst[ty.param].ty;
      } else {
        folded := DefaultFoldTy(ty, n);
      }
    }

    method FoldInto(ty: Ty, ghost n: nat) returns (p: Ptr)
      requires Ready() && TyOk(source.cells, ty, n)
      modifies target
      ensures Extended(old(target.cells))
      ensures PtrOk(target.cells, p, |target.cells|)
      ensures ReadPtr(target.cells, p) == SubstTree(CurrentEnv(), ReadTy(source.cells, n, ty))
      decreases n, 3
    {
      ghost var before := target.cells;
      var folded := FoldTy(ty, n);
      ghost var middle := target.cells;
      p := target.Alloc(folded);
      EnvStable(middle, target.cells, subst);
      GrowsTransitive(before, middle, target.cells);
    }

    method FoldPtr(ptr: Ptr) returns (p: Ptr)
      requires Ready() && PtrOk(source.cells, ptr, |source.cells|)
      modifies target
      ensures Extended(old(target.cells))
      ensures PtrOk(target.cells, p, |target.cells|)
      ensures ReadPtr(target.cells, p) == SubstTree(CurrentEnv(), ReadPtr(source.cells, ptr))
      decreases ptr, 4
    {
      assert CellOk(source.cells, ptr);
      p := FoldInto(source.cells[ptr].ty, ptr);
    }

    method DefaultFoldTy(ty: Ty, ghost n: nat) returns (folded: Ty)
      requires Ready() && TyOk(source.cells, ty, n)
      modifies target
      ensures Extended(old(target.cells))
      ensures TyOk(target.cells, folded, |target.cells|)
      ensures ReadTy(target.cells, |target.cells|, folded) == SubstChildren(CurrentEnv(), ReadTy(source.cells, n, ty))
      ensures SameShape(ty, folded)
      decreases n, 1
    {
      hide WellFounded, SubstOk, EnvOf, Grows, AliasOk, ReadSlice, ReadPtr, ReadAlias, SubstTree, SubstTrees;
      match ty {
        case Adt(sym, args) =>
          var args' := FoldPtrSlice(args);
          folded := Adt(sym, args');
        case Alias(alias) =>
          var alias' := FoldAliasTy(alias, n);
          folded := Alias(alias');
        case Ref(inner, mutability, lifetime) =>
          var inner' := FoldPtr(inner);
          folded := Ref(inner', mutability, lifetime);
        case Tuple(elems) =>
          var elems' := FoldPtrSlice(elems);
          folded := Tuple(elems');
        case SliceOf(inner) =>
          var inner' := FoldPtr(inner);
          folded := SliceOf(inner');
        case Array(inner, length) =>
          var inner' := FoldPtr(inner);
          folded := Array(inner', length);
        case FnPtr(params, ret) =>
          folded := FoldFnPtr(params, ret, n);
        case _ =>
          GrowsNothing(target.cells);
          folded := ty;
      }
    }

    method FoldFnPtr(params: Slice, ret: Ptr, ghost n: nat) returns (folded: Ty)
      requires Ready() && TyOk(source.cells, FnPtr(params, ret), n)
      modifies target
      ensures Extended(old(target.cells))
      ensures TyOk(target.cells, folded, |target.cells|)
      ensures ReadTy(target.cells, |target.cells|, folded)
           == SubstChildren(CurrentEnv(), ReadTy(source.cells, n, FnPtr(params, ret)))
      ensures folded.FnPtr?
      decreases n, 0
    {
      hide WellFounded, SubstOk, EnvOf, Grows, ReadSlice, ReadPtr, SubstTree, SubstTrees;
      ghost var before := target.cells;
      var params' := FoldPtrSlice(params);
      ghost var middle := target.cells;
      var ret' := FoldPtr(ret);
      ReadSliceStable(middle, target.cells, params');
      GrowsTransitive(before, middle, target.cells);
      folded := FnPtr(params', ret');
    }

    method FoldAliasTy(alias: AliasTy, ghost n: nat) returns (folded: AliasTy)
      requires Ready() && AliasOk(source.cells, alias, n)
      modifies target
      ensures Extended(old(target.cells))
      ensures AliasOk(target.cells, folded, |target.cells|)
      ensures ReadAlias(target.cells, |target.cells|, folded)
           == SubstChildren(CurrentEnv(), ReadAlias(source.cells, n, alias))
      ensures SameAlias(alias, folded)
      decreases n, 0
    {
      hide WellFounded, SubstOk, EnvOf, Grows, ReadSlice, ReadPtr, SubstTree, SubstTrees;
      match alias {
        case Named(def, args) =>
          var args' := FoldPtrSlice(args);
          folded := Named(def, args');
        case Associated(associatedTy, selfTy, traitRef, args) =>
          ghost var first := target.cells;
          var selfTy' := FoldPtr(selfTy);
          ghost var second := target.cells;
          var traitRef' := FoldTraitRef(traitRef);
          ghost var third := target.cells;
          var args' := FoldPtrSlice(args);
          GrowsTransitive(first, second, third);
          GrowsTransitive(second, third, target.cells);
          GrowsTransitive(first, third, target.cells);
          ReadPtrStable(second, target.cells, selfTy');
          ReadSliceStable(third, target.cells, traitRef'.args);
          folded := Associated(associatedTy, selfTy', traitRef', args');
        case Opaque(def, args) =>
          var args' := FoldPtrSlice(args);
          folded := Opaque(def, args');
      }
    }

    method FoldTraitRef(traitRef: TraitRef) returns (folded: TraitRef)
      requires Ready() && SliceOk(source.cells, traitRef.args, |source.cells|)
      modifies target
      ensures Extended(old(target.cells))
      ensures folded.traitSym == traitRef.traitSym
      ensures SliceOk(target.cells, folded.args, |target.cells|)
      ensures ReadSlice(target.cells, folded.args) == SubstTrees(CurrentEnv(), ReadSlice(source.cells, traitRef.args))
      decreases traitRef.args, 6
    {
      var args := FoldPtrSlice(traitRef.args);
      folded := TraitRef(traitRef.traitSym, args);
    }

    method FoldPtrSlice(slice: Slice) returns (folded: Slice)
      requires Ready() && SliceOk(source.cells, slice, |source.cells|)
      modifies target
      ensures Extended(old(target.cells))
      ensures SliceOk(target.cells, folded, |target.cells|)
      ensures ReadSlice(target.cells, folded) == SubstTrees(CurrentEnv(), ReadSlice(source.cells, slice))
      decreases slice, 5
    {
      hide WellFounded, SubstOk, EnvOf, ReadPtr, SubstTree;
      assert PtrsOk(source.cells, source.cells[slice].ptrs, slice) by {
        SliceCell(source.cells, slice);
      }
      var src := source.cells[slice].ptrs;
      var ptrs: seq<Ptr> := [];
      ghost var before := target.cells;
      for i := 0 to |src|
        invariant Extended(before)
        invariant |ptrs| == i && PtrsOk(target.cells, ptrs, |target.cells|)
        invariant PtrsOk(source.cells, src[..i], slice)
        invariant ReadPtrs(target.cells, |target.cells|, ptrs)
               == SubstTrees(EnvOf(before, subst), ReadPtrs(source.cells, slice, src[..i]))
      {
        assert PtrOk(source.cells, src[i], slice);
        ghost var middle := target.cells;
        var p := FoldPtr(src[i]);
        GrowsTransitive(before, middle, target.cells);
        PtrsOkGrows(middle, target.cells, ptrs);
        ReadPtrsStable(middle, target.cells, |middle|, |target.cells|, ptrs);
        assert (ptrs + [p])[..i] == ptrs;
        assert src[..i + 1][..i] == src[..i];
        ptrs := ptrs + [p];
      }
      assert src[..|src|] == src;
      ghost var filled := target.cells;
      folded := target.AllocSlice(ptrs);
      EnvStable(filled, target.cells, subst);
      GrowsTransitive(before, filled, target.cells);
    }
  }

  lemma SliceCell(a: Arena, s: Slice)
    requires WellFounded(a) && SliceOk(a, s, |a|)
    ensures PtrsOk(a, a[s].ptrs, s)
    ensures ReadSlice(a, s) == ReadPtrs(a, s, a[s].ptrs)
  {
    assert CellOk(a, s);
  }
}
