/** Resolved types as the compiler stores them: values whose children are pointers
    into an append-only arena, and the trees those pointers denote. */
module TypeArena {

  type Ptr = nat
  type Slice = nat
  type Symbol = nat

  datatype ParamKind = TypeKind | LifetimeKind | ConstKind

  datatype GenericParam =
    Ast(id: nat, kind: ParamKind) | Ext(id: nat, kind: ParamKind) | AlphaEquiv(index: nat, kind: ParamKind)

  datatype Const = Literal(value: nat) | ConstParam(param: GenericParam) | Other(symbol: Symbol)

  datatype IntTy = I8 | I16 | I32 | I64 | I128 | Isize
  datatype UintTy = U8 | U16 | U32 | U64 | U128 | Usize
  datatype FloatTy = F32 | F64
  datatype Mutability = Shared | Mutable
  datatype Lifetime = Dummy

  datatype TraitRef = TraitRef(traitSym: Symbol, args: Slice)

  datatype AliasTy =
    | Named(def: Symbol, args: Slice)
    | Associated(associatedTy: Symbol, selfTy: Ptr, traitRef: TraitRef, args: Slice)
    | Opaque(def: Symbol, args: Slice)

  datatype Ty =
    | Bool | Char | Int(int_: IntTy) | Uint(uint: UintTy) | Float(float: FloatTy) | Str
    | Adt(sym: Symbol, args: Slice)
    | Alias(alias: AliasTy)
    | Ref(inner: Ptr, mutability: Mutability, lifetime: Lifetime)
    | Tuple(elems: Slice)
    | SliceOf(inner: Ptr)
    | Array(inner: Ptr, length: Const)
    | FnPtr(params: Slice, ret: Ptr)
    | Param(param: GenericParam)
    | InferVar(index: nat)
    | Never
    | Error(reported: nat)

  datatype WherePredicate = WherePredicate(selfTy: Ptr, traitRef: TraitRef)

  datatype Cell = TyCell(ty: Ty) | PtrsCell(ptrs: seq<Ptr>) | PredicatesCell(predicates: seq<WherePredicate>)

  type Arena = seq<Cell>

  // ---------------------------------------------------------------- well-founded pointers

  ghost predicate PtrOk(a: Arena, p: Ptr, n: nat) {
    p < n <= |a| && a[p].TyCell?
  }

  ghost predicate SliceOk(a: Arena, s: Slice, n: nat) {
    s < n <= |a| && a[s].PtrsCell?
  }

  ghost predicate AliasOk(a: Arena, alias: AliasTy, n: nat) {
    match alias
    case Named(_, args) => SliceOk(a, args, n)
    case Associated(_, selfTy, traitRef, args) =>
      PtrOk(a, selfTy, n) && SliceOk(a, traitRef.args, n) && SliceOk(a, args, n)
    case Opaque(_, args) => SliceOk(a, args, n)
  }

  /** Every pointer of `ty` is below `n` and of the right kind. */
  ghost predicate TyOk(a: Arena, ty: Ty, n: nat) {
    && n <= |a|
    && match ty
       case Adt(_, args) => SliceOk(a, args, n)
       case Alias(alias) => AliasOk(a, alias, n)
       case Ref(inner, _, _) => PtrOk(a, inner, n)
       case Tuple(elems) => SliceOk(a, elems, n)
       case SliceOf(inner) => PtrOk(a, inner, n)
       case Array(inner, _) => PtrOk(a, inner, n)
       case FnPtr(params, ret) => SliceOk(a, params, n) && PtrOk(a, ret, n)
       case _ => true
  }

  ghost predicate PtrsOk(a: Arena, ptrs: seq<Ptr>, n: nat) {
    n <= |a| && forall i :: 0 <= i < |ptrs| ==> PtrOk(a, ptrs[i], n)
  }

  ghost predicate PredicateOk(a: Arena, predicate_: WherePredicate, n: nat) {
    PtrOk(a, predicate_.selfTy, n) && SliceOk(a, predicate_.traitRef.args, n)
  }

  ghost predicate PredicatesOk(a: Arena, predicates: seq<WherePredicate>, n: nat) {
    n <= |a| && forall i :: 0 <= i < |predicates| ==> PredicateOk(a, predicates[i], n)
  }

  ghost predicate CellOk(a: Arena, i: nat)
    requires i < |a|
  {
    match a[i]
    case TyCell(ty) => TyOk(a, ty, i)
    case PtrsCell(ptrs) => PtrsOk(a, ptrs, i)
    case PredicatesCell(predicates) => PredicatesOk(a, predicates, i)
  }

  /** A cell refers only to cells allocated before it. */
  ghost predicate WellFounded(a: Arena) {
    forall i :: 0 <= i < |a| ==> CellOk(a, i)
  }

  // ---------------------------------------------------------------- trees

  datatype Tree =
    | TLeaf(leaf: Ty)
    | TParam(param: GenericParam)
    | TAdt(sym: Symbol, args: seq<Tree>)
    | TNamed(def: Symbol, args: seq<Tree>)
    | TAssociated(associatedTy: Symbol, selfTy: Tree, traitSym: Symbol, traitArgs: seq<Tree>, args: seq<Tree>)
    | TOpaque(def: Symbol, args: seq<Tree>)
    | TRef(inner: Tree, mutability: Mutability, lifetime: Lifetime)
    | TTuple(elems: seq<Tree>)
    | TSlice(inner: Tree)
    | TArray(inner: Tree, length: Const)
    | TFnPtr(params: seq<Tree>, ret: Tree)

  ghost function ReadAlias(a: Arena, n: nat, alias: AliasTy): Tree
    requires WellFounded(a) && AliasOk(a, alias, n)
    decreases n, 0
  {
    match alias
    case Named(def, args) => TNamed(def, ReadSlice(a, args))
    case Associated(associatedTy, selfTy, traitRef, args) =>
      TAssociated(associatedTy, ReadPtr(a, selfTy), traitRef.traitSym, ReadSlice(a, traitRef.args), ReadSlice(a, args))
    case Opaque(def, args) => TOpaque(def, ReadSlice(a, args))
  }

  /** The tree a type denotes; `n` only bounds its pointers. */
  ghost function ReadTy(a: Arena, n: nat, ty: Ty): Tree
    requires WellFounded(a) && TyOk(a, ty, n)
    decreases n, 1
  {
    match ty
    case Adt(sym, args) => TAdt(sym, ReadSlice(a, args))
    case Alias(alias) => ReadAlias(a, n, alias)
    case Ref(inner, mutability, lifetime) => TRef(ReadPtr(a, inner), mutability, lifetime)
    case Tuple(elems) => TTuple(ReadSlice(a, elems))
    case SliceOf(inner) => TSlice(ReadPtr(a, inner))
    case Array(inner, length) => TArray(ReadPtr(a, inner), length)
    case FnPtr(params, ret) => TFnPtr(ReadSlice(a, params), ReadPtr(a, ret))
    case Param(param) => TParam(param)
    case _ => TLeaf(ty)
  }

  ghost function ReadPtr(a: Arena, p: Ptr): Tree
    requires WellFounded(a) && PtrOk(a, p, |a|)
    decreases p, 2
  {
    assert CellOk(a, p);
    ReadTy(a, p, a[p].ty)
  }

  ghost function ReadPtrs(a: Arena, n: nat, ptrs: seq<Ptr>): (trees: seq<Tree>)
    requires WellFounded(a) && PtrsOk(a, ptrs, n)
    ensures |trees| == |ptrs|
    decreases n, 2, |ptrs|
  {
    if ptrs == [] then []
    else
      assert PtrOk(a, ptrs[|ptrs| - 1], n);
      ReadPtrs(a, n, ptrs[..|ptrs| - 1]) + [ReadPtr(a, ptrs[|ptrs| - 1])]
  }

  ghost function ReadSlice(a: Arena, s: Slice): seq<Tree>
    requires WellFounded(a) && SliceOk(a, s, |a|)
    decreases s, 3
  {
    assert CellOk(a, s);
    ReadPtrs(a, s, a[s].ptrs)
  }

  // ---------------------------------------------------------------- growing the arena

  lemma OkGrows(a: Arena, more: Arena, n: nat)
    requires n <= |a|
    ensures forall p: nat, m: nat :: m <= n ==> (PtrOk(a + more, p, m) <==> PtrOk(a, p, m))
    ensures forall s: nat, m: nat :: m <= n ==> (SliceOk(a + more, s, m) <==> SliceOk(a, s, m))
  {
    assert forall i :: 0 <= i < |a| ==> (a + more)[i] == a[i];
  }

  lemma CellOkGrows(a: Arena, more: Arena, i: nat)
    requires i < |a| && CellOk(a, i)
    ensures CellOk(a + more, i)
  {
    assert (a + more)[i] == a[i];
    OkGrows(a, more, |a|);
  }

  /** Appending a cell that refers only to what is already there keeps the arena well founded. */
  lemma AppendCell(a: Arena, cell: Cell)
    requires WellFounded(a)
    requires match cell
             case TyCell(ty) => TyOk(a, ty, |a|)
             case PtrsCell(ptrs) => PtrsOk(a, ptrs, |a|)
             case PredicatesCell(predicates) => PredicatesOk(a, predicates, |a|)
    ensures WellFounded(a + [cell])
  {
    var b := a + [cell];
    OkGrows(a, [cell], |a|);
    forall i | 0 <= i < |b|
      ensures CellOk(b, i)
    {
      if i < |a| {
        CellOkGrows(a, [cell], i);
      } else {
        assert b[i] == cell;
      }
    }
  }

  ghost predicate Grows(a: Arena, b: Arena) {
    |a| <= |b| && b[..|a|] == a
  }

  lemma OkInGrown(a: Arena, b: Arena)
    requires Grows(a, b)
    ensures forall p: nat, m: nat :: PtrOk(a, p, m) ==> PtrOk(b, p, m)
    ensures forall s: nat, m: nat :: SliceOk(a, s, m) ==> SliceOk(b, s, m)
    ensures forall i :: 0 <= i < |a| ==> b[i] == a[i]
  {
    assert forall i :: 0 <= i < |a| ==> b[i] == b[..|a|][i];
  }

  /** Pointers keep their meaning: growing the arena changes no tree. */
  lemma {:induction false} ReadTyStable(a: Arena, b: Arena, n: nat, m: nat, ty: Ty)
    requires WellFounded(a) && WellFounded(b) && Grows(a, b) && TyOk(a, ty, n) && TyOk(b, ty, m)
    ensures ReadTy(b, m, ty) == ReadTy(a, n, ty)
    decreases n, 1
  {
    match ty
    case Adt(sym, args) => ReadSliceStable(a, b, args);
    case Alias(alias) => ReadAliasStable(a, b, n, m, alias);
    case Ref(inner, mutability, lifetime) => ReadPtrStable(a, b, inner);
    case Tuple(elems) => ReadSliceStable(a, b, elems);
    case SliceOf(inner) => ReadPtrStable(a, b, inner);
    case Array(inner, length) => ReadPtrStable(a, b, inner);
    case FnPtr(params, ret) => ReadSliceStable(a, b, params); ReadPtrStable(a, b, ret);
    case _ =>
  }

  lemma {:induction false} ReadAliasStable(a: Arena, b: Arena, n: nat, m: nat, alias: AliasTy)
    requires WellFounded(a) && WellFounded(b) && Grows(a, b) && AliasOk(a, alias, n) && AliasOk(b, alias, m)
    ensures ReadAlias(b, m, alias) == ReadAlias(a, n, alias)
    decreases n, 0
  {
    match alias
    case Named(def, args) => ReadSliceStable(a, b, args);
    case Associated(associatedTy, selfTy, traitRef, args) =>
      ReadPtrStable(a, b, selfTy);
      ReadSliceStable(a, b, traitRef.args);
      ReadSliceStable(a, b, args);
    case Opaque(def, args) => ReadSliceStable(a, b, args);
  }

  lemma {:induction false} ReadPtrStable(a: Arena, b: Arena, p: Ptr)
    requires WellFounded(a) && WellFounded(b) && Grows(a, b) && PtrOk(a, p, |a|)
    ensures PtrOk(b, p, |b|) && ReadPtr(b, p) == ReadPtr(a, p)
    decreases p, 2
  {
    OkInGrown(a, b);
    assert CellOk(a, p) && CellOk(b, p);
    ReadTyStable(a, b, p, p, a[p].ty);
  }

  lemma {:induction false} ReadPtrsStable(a: Arena, b: Arena, n: nat, m: nat, ptrs: seq<Ptr>)
    requires WellFounded(a) && WellFounded(b) && Grows(a, b) && PtrsOk(a, ptrs, n) && PtrsOk(b, ptrs, m)
    ensures ReadPtrs(b, m, ptrs) == ReadPtrs(a, n, ptrs)
    decreases n, 2, |ptrs|
  {
    if ptrs != [] {
      assert PtrOk(a, ptrs[|ptrs| - 1], n);
      ReadPtrsStable(a, b, n, m, ptrs[..|ptrs| - 1]);
      ReadPtrStable(a, b, ptrs[|ptrs| - 1]);
    }
  }

  lemma {:induction false} ReadSliceStable(a: Arena, b: Arena, s: Slice)
    requires WellFounded(a) && WellFounded(b) && Grows(a, b) && SliceOk(a, s, |a|)
    ensures SliceOk(b, s, |b|) && ReadSlice(b, s) == ReadSlice(a, s)
    decreases s, 3
  {
    OkInGrown(a, b);
    assert CellOk(a, s) && CellOk(b, s);
    ReadPtrsStable(a, b, s, s, a[s].ptrs);
  }

  // ---------------------------------------------------------------- the arena object

  class Stash {
    var cells: Arena

    ghost predicate Valid()
      reads this
    {
      WellFounded(cells)
    }

    constructor ()
      ensures Valid() && cells == []
    {
      cells := [];
    }

    method Alloc(ty: Ty) returns (p: Ptr)
      requires Valid() && TyOk(cells, ty, |cells|)
      modifies this
      ensures Valid() && cells == old(cells) + [TyCell(ty)] && p == |old(cells)|
      ensures PtrOk(cells, p, |cells|) && ReadPtr(cells, p) == ReadTy(old(cells), |old(cells)|, ty)
    {
      AppendCell(cells, TyCell(ty));
      p := |cells|;
      cells := cells + [TyCell(ty)];
      assert CellOk(cells, p);
      ReadTyStable(old(cells), cells, p, p, ty);
    }

    method AllocSlice(ptrs: seq<Ptr>) returns (s: Slice)
      requires Valid() && PtrsOk(cells, ptrs, |cells|)
      modifies this
      ensures Valid() && cells == old(cells) + [PtrsCell(ptrs)] && s == |old(cells)|
      ensures SliceOk(cells, s, |cells|) && ReadSlice(cells, s) == ReadPtrs(old(cells), |old(cells)|, ptrs)
    {
      AppendCell(cells, PtrsCell(ptrs));
      s := |cells|;
      cells := cells + [PtrsCell(ptrs)];
      assert CellOk(cells, s);
      ReadPtrsStable(old(cells), cells, s, s, ptrs);
    }

    method AllocPredicates(predicates: seq<WherePredicate>) returns (s: Slice)
      requires Valid() && PredicatesOk(cells, predicates, |cells|)
      modifies this
      ensures Valid() && cells == old(cells) + [PredicatesCell(predicates)] && s == |old(cells)|
    {
      AppendCell(cells, PredicatesCell(predicates));
      s := |cells|;
      cells := cells + [PredicatesCell(predicates)];
    }
  }
}
