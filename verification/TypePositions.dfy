/** Substitution told position by position: what stays, what is replaced, and nothing else. */
module TypePositions {
  import opened Wrappers
  import opened TypeArena
  import opened TypeFold
  import opened TypeSignatures

  // ---------------------------------------------------------------- positions of a tree

  /** A node without its children: its constructor, its own fields and how many children it has. */
  datatype Head =
    | LeafHead(leaf: Ty)
    | ParamHead(param: GenericParam)
    | AdtHead(sym: Symbol, arity: nat)
    | NamedHead(def: Symbol, arity: nat)
    | AssociatedHead(associatedTy: Symbol, traitSym: Symbol, traitArity: nat, arity: nat)
    | OpaqueHead(def: Symbol, arity: nat)
    | RefHead(mutability: Mutability, lifetime: Lifetime)
    | TupleHead(arity: nat)
    | SliceHead
    | ArrayHead(length: Const)
    | FnPtrHead(arity: nat)

  function HeadOf(t: Tree): Head {
    match t
    case TLeaf(leaf) => LeafHead(leaf)
    case TParam(param) => ParamHead(param)
    case TAdt(sym, args) => AdtHead(sym, |args|)
    case TNamed(def, args) => NamedHead(def, |args|)
    case TAssociated(associatedTy, _, traitSym, traitArgs, args) =>
      AssociatedHead(associatedTy, traitSym, |traitArgs|, |args|)
    case TOpaque(def, args) => OpaqueHead(def, |args|)
    case TRef(_, mutability, lifetime) => RefHead(mutability, lifetime)
    case TTuple(elems) => TupleHead(|elems|)
    case TSlice(_) => SliceHead
    case TArray(_, length) => ArrayHead(length)
    case TFnPtr(params, _) => FnPtrHead(|params|)
  }

  ghost function Children(t: Tree): (children: seq<Tree>)
    ensures forall i :: 0 <= i < |children| ==> children[i] < t
  {
    match t
    case TAdt(_, args) => args
    case TNamed(_, args) => args
    case TAssociated(_, selfTy, _, traitArgs, args) => [selfTy] + traitArgs + args
    case TOpaque(_, args) => args
    case TRef(inner, _, _) => [inner]
    case TTuple(elems) => elems
    case TSlice(inner) => [inner]
    case TArray(inner, _) => [inner]
    case TFnPtr(params, ret) => params + [ret]
    case _ => []
  }

  /** A node is its head and its children. */
  lemma NodeIs(a: Tree, b: Tree)
    requires HeadOf(a) == HeadOf(b) && Children(a) == Children(b)
    ensures a == b
  {
    if a.TAssociated? {
      var all, n := Children(a), |a.traitArgs|;
      assert a.selfTy == all[0] == b.selfTy;
      assert a.traitArgs == all[1..n + 1] == b.traitArgs;
      assert a.args == all[n + 1..] == b.args;
    } else if a.TFnPtr? {
      var all, n := Children(a), |a.params|;
      assert a.params == all[..n] == b.params && a.ret == all[n] == b.ret;
    } else if a.TRef? || a.TSlice? || a.TArray? {
      assert a.inner == Children(a)[0] == b.inner;
    }
  }

  lemma SameArity(a: Tree, b: Tree)
    requires HeadOf(a) == HeadOf(b)
    ensures |Children(a)| == |Children(b)|
  {
  }

  /** The node reached by following child numbers from the root. */
  ghost function At(t: Tree, path: seq<nat>): Option<Tree>
    decreases |path|
  {
    if path == [] then Some(t)
    else if path[0] < |Children(t)| then At(Children(t)[path[0]], path[1..])
    else None
  }

  lemma AtChild(t: Tree, i: nat, path: seq<nat>)
    requires i < |Children(t)|
    ensures At(t, [i] + path) == At(Children(t)[i], path)
  {
    assert ([i] + path)[1..] == path;
  }

  // ---------------------------------------------------------------- the law

  /** A mapped parameter is replaced; any other node keeps its constructor and all its own fields. */
  ghost predicate Kept(env: Env, s: Tree, r: Tree) {
    if s.TParam? && s.param in env then r == env[s.param] else HeadOf(r) == HeadOf(s)
  }

  ghost predicate KeptAt(env: Env, t: Tree, r: Tree, path: seq<nat>) {
    At(t, path).Some? ==> At(r, path).Some? && Kept(env, At(t, path).value, At(r, path).value)
  }

  ghost predicate Substituted(env: Env, t: Tree, r: Tree) {
    forall path :: KeptAt(env, t, r, path)
  }

  lemma {:induction false} SubstTreesAt(env: Env, ts: seq<Tree>, i: nat)
    requires i < |ts|
    ensures SubstTrees(env, ts)[i] == SubstTree(env, ts[i])
    decreases |ts|
  {
    if i < |ts| - 1 {
      SubstTreesAt(env, ts[..|ts| - 1], i);
    }
  }

  lemma AllSubstituted(env: Env, ts: seq<Tree>)
    ensures forall i :: 0 <= i < |ts| ==> SubstTrees(env, ts)[i] == SubstTree(env, ts[i])
  {
    hide SubstTree, SubstTrees;
    forall i | 0 <= i < |ts|
      ensures SubstTrees(env, ts)[i] == SubstTree(env, ts[i])
    {
      SubstTreesAt(env, ts, i);
    }
  }

  lemma Descends(env: Env, t: Tree)
    requires !(t.TParam? && t.param in env)
    ensures SubstTree(env, t) == SubstChildren(env, t)
  {
  }

  /** Away from mapped parameters the head stays and the children are substituted. */
  lemma SubstChildrenAre(env: Env, t: Tree)
    requires !(t.TParam? && t.param in env)
    ensures HeadOf(SubstTree(env, t)) == HeadOf(t) && |Children(SubstTree(env, t))| == |Children(t)|
    ensures forall i :: 0 <= i < |Children(t)| ==>
      Children(SubstTree(env, t))[i] == SubstTree(env, Children(t)[i])
  {
    hide SubstTree, SubstTrees;
    Descends(env, t);
    match t
    case TAdt(_, args) => AllSubstituted(env, args);
    case TNamed(_, args) => AllSubstituted(env, args);
    case TAssociated(_, _, _, traitArgs, args) =>
      AllSubstituted(env, traitArgs);
      AllSubstituted(env, args);
    case TOpaque(_, args) => AllSubstituted(env, args);
    case TTuple(elems) => AllSubstituted(env, elems);
    case TFnPtr(params, _) => AllSubstituted(env, params);
    case _ =>
  }

  lemma {:induction false} SubstKeeps(env: Env, t: Tree, path: seq<nat>)
    ensures KeptAt(env, t, SubstTree(env, t), path)
    decreases |path|
  {
    hide SubstTree;
    if t.TParam? && t.param in env {
      MappedParam(env, t);
    } else {
      SubstChildrenAre(env, t);
      if path != [] && path[0] < |Children(t)| {
        SubstKeeps(env, Children(t)[path[0]], path[1..]);
      }
    }
  }

  lemma MappedParam(env: Env, t: Tree)
    requires t.TParam? && t.param in env
    ensures SubstTree(env, t) == env[t.param]
  {
  }

  lemma {:induction false} KeptIsSubst(env: Env, t: Tree, r: Tree)
    requires Substituted(env, t, r)
    ensures r == SubstTree(env, t)
    decreases t
  {
    hide SubstTree, Substituted, HeadOf;
    assert KeptAt(env, t, r, []) by {
      KeptEverywhere(env, t, r, []);
    }
    if t.TParam? && t.param in env {
      MappedParam(env, t);
    } else {
      SubstChildrenAre(env, t);
      SameArity(r, t);
      var s := SubstTree(env, t);
      forall i | 0 <= i < |Children(t)|
        ensures Children(r)[i] == Children(s)[i]
      {
        ChildrenKept(env, t, r, i);
        KeptIsSubst(env, Children(t)[i], Children(r)[i]);
      }
      assert Children(r) == Children(s);
      NodeIs(r, s);
    }
  }

  lemma KeptEverywhere(env: Env, t: Tree, r: Tree, path: seq<nat>)
    requires Substituted(env, t, r)
    ensures KeptAt(env, t, r, path)
  {
  }

  lemma ChildrenKept(env: Env, t: Tree, r: Tree, i: nat)
    requires Substituted(env, t, r) && i < |Children(t)| && i < |Children(r)|
    ensures Substituted(env, Children(t)[i], Children(r)[i])
  {
    forall path
      ensures KeptAt(env, Children(t)[i], Children(r)[i], path)
    {
      KeptEverywhere(env, t, r, [i] + path);
      AtChild(t, i, path);
      AtChild(r, i, path);
    }
  }

  /** Substitution is exactly this: mapped parameters are replaced and every other position keeps its
      constructor, symbol, mutability, lifetime, array length and arity. */
  lemma SubstIff(env: Env, t: Tree, r: Tree)
    ensures r == SubstTree(env, t) <==> Substituted(env, t, r)
  {
    hide KeptAt;
    if r == SubstTree(env, t) {
      forall path
        ensures KeptAt(env, t, r, path)
      {
        SubstKeeps(env, t, path);
      }
    }
    if Substituted(env, t, r) {
      KeptIsSubst(env, t, r);
    }
  }

  // ---------------------------------------------------------------- predicates and signatures

  ghost predicate SubstitutedAll(env: Env, ts: seq<Tree>, rs: seq<Tree>) {
    |rs| == |ts| && forall i :: 0 <= i < |ts| ==> Substituted(env, ts[i], rs[i])
  }

  lemma SubstAllIff(env: Env, ts: seq<Tree>, rs: seq<Tree>)
    ensures rs == SubstTrees(env, ts) <==> SubstitutedAll(env, ts, rs)
  {
    hide SubstTrees, SubstTree, Substituted;
    if |rs| == |ts| {
      forall i | 0 <= i < |ts|
        ensures rs[i] == SubstTrees(env, ts)[i] <==> Substituted(env, ts[i], rs[i])
      {
        SubstTreesAt(env, ts, i);
        SubstIff(env, ts[i], rs[i]);
      }
    }
  }

  ghost predicate PredicateSubstituted(env: Env, p: PredicateTree, q: PredicateTree) {
    && Substituted(env, p.selfTy, q.selfTy) && q.traitSym == p.traitSym
    && SubstitutedAll(env, p.traitArgs, q.traitArgs)
  }

  /** A where clause keeps its trait; its self type and arguments are substituted. */
  lemma SubstPredicateIff(env: Env, p: PredicateTree, q: PredicateTree)
    ensures q == SubstPredicate(env, p) <==> PredicateSubstituted(env, p, q)
  {
    hide SubstTrees, SubstTree, Substituted, SubstitutedAll;
    SubstIff(env, p.selfTy, q.selfTy);
    SubstAllIff(env, p.traitArgs, q.traitArgs);
  }

  ghost predicate PredicatesSubstituted(env: Env, ps: seq<PredicateTree>, qs: seq<PredicateTree>) {
    |qs| == |ps| && forall i :: 0 <= i < |ps| ==> PredicateSubstituted(env, ps[i], qs[i])
  }

  lemma {:induction false} SubstPredicatesAt(env: Env, ps: seq<PredicateTree>, i: nat)
    requires i < |ps|
    ensures SubstPredicates(env, ps)[i] == SubstPredicate(env, ps[i])
    decreases |ps|
  {
    if i < |ps| - 1 {
      SubstPredicatesAt(env, ps[..|ps| - 1], i);
    }
  }

  lemma SubstPredicatesIff(env: Env, ps: seq<PredicateTree>, qs: seq<PredicateTree>)
    ensures qs == SubstPredicates(env, ps) <==> PredicatesSubstituted(env, ps, qs)
  {
    hide SubstPredicates, SubstPredicate, PredicateSubstituted;
    if |qs| == |ps| {
      forall i | 0 <= i < |ps|
        ensures qs[i] == SubstPredicates(env, ps)[i] <==> PredicateSubstituted(env, ps[i], qs[i])
      {
        SubstPredicatesAt(env, ps, i);
        SubstPredicateIff(env, ps[i], qs[i]);
      }
    }
  }

  ghost predicate OwnerSubstituted(env: Env, s: Option<Tree>, r: Option<Tree>) {
    match s
    case None => r.None?
    case Some(owner) => r.Some? && Substituted(env, owner, r.value)
  }

  ghost predicate ReceiverSubstituted(env: Env, s: Option<ReceiverTree>, r: Option<ReceiverTree>) {
    match s
    case None => r.None?
    case Some(receiver) =>
      r.Some? && r.value.form == receiver.form && Substituted(env, receiver.ownerSelfTy, r.value.ownerSelfTy)
  }

  ghost predicate SigSubstituted(env: Env, s: SigTree, r: SigTree) {
    && r.ownerGenericCount == s.ownerGenericCount
    && r.methodCandidateEligibility == s.methodCandidateEligibility && r.constCallComplete == s.constCallComplete
    && r.parameterEnv.solverEligibility == s.parameterEnv.solverEligibility
    && OwnerSubstituted(env, s.ownerSelfTy, r.ownerSelfTy)
    && ReceiverSubstituted(env, s.receiver, r.receiver)
    && SubstitutedAll(env, s.params, r.params) && Substituted(env, s.ret, r.ret)
    && PredicatesSubstituted(env, s.parameterEnv.predicates, r.parameterEnv.predicates)
  }

  /** A signature keeps everything but types, and its types are substituted. */
  lemma SubstSigIff(env: Env, s: SigTree, r: SigTree)
    ensures r == SubstSig(env, s) <==> SigSubstituted(env, s, r)
  {
    hide SubstTrees, SubstTree, SubstPredicates, Substituted, SubstitutedAll, PredicatesSubstituted;
    if s.ownerSelfTy.Some? && r.ownerSelfTy.Some? {
      SubstIff(env, s.ownerSelfTy.value, r.ownerSelfTy.value);
    }
    if s.receiver.Some? && r.receiver.Some? {
      SubstIff(env, s.receiver.value.ownerSelfTy, r.receiver.value.ownerSelfTy);
    }
    SubstAllIff(env, s.params, r.params);
    SubstIff(env, s.ret, r.ret);
    SubstPredicatesIff(env, s.parameterEnv.predicates, r.parameterEnv.predicates);
  }

  // ---------------------------------------------------------------- what is not mapped

  lemma {:induction false} ParamsOfAllHolds(ts: seq<Tree>, p: GenericParam)
    ensures p in ParamsOfAll(ts) <==> exists i :: 0 <= i < |ts| && p in ParamsOf(ts[i])
    decreases |ts|
  {
    if ts != [] {
      ParamsOfAllHolds(ts[..|ts| - 1], p);
    }
  }

  lemma ParamsOfChildren(t: Tree, p: GenericParam)
    requires !t.TParam?
    ensures p in ParamsOf(t) <==> exists i :: 0 <= i < |Children(t)| && p in ParamsOf(Children(t)[i])
  {
    hide ParamsOfAll;
    var children := Children(t);
    match t
    case TAdt(_, args) => ParamsOfAllHolds(args, p);
    case TNamed(_, args) => ParamsOfAllHolds(args, p);
    case TOpaque(_, args) => ParamsOfAllHolds(args, p);
    case TTuple(elems) => ParamsOfAllHolds(elems, p);
    case TAssociated(_, selfTy, _, traitArgs, args) =>
      ParamsOfAllHolds(traitArgs, p);
      ParamsOfAllHolds(args, p);
      assert children[0] == selfTy;
      assert forall i :: 0 <= i < |traitArgs| ==> children[1 + i] == traitArgs[i];
      assert forall i :: 0 <= i < |args| ==> children[1 + |traitArgs| + i] == args[i];
    case TFnPtr(params, ret) =>
      ParamsOfAllHolds(params, p);
      assert children[|params|] == ret;
      assert forall i :: 0 <= i < |params| ==> children[i] == params[i];
    case TLeaf(_) =>
    case TRef(inner, _, _) => assert children[0] == inner;
    case TSlice(inner) => assert children[0] == inner;
    case TArray(inner, _) => assert children[0] == inner;
  }

  lemma {:induction false} ParamAtIsListed(t: Tree, path: seq<nat>, p: GenericParam)
    requires At(t, path) == Some(TParam(p))
    ensures p in ParamsOf(t)
    decreases |path|
  {
    hide ParamsOf;
    if path == [] {
      OwnParam(p);
    } else {
      ParamAtIsListed(Children(t)[path[0]], path[1..], p);
      ParamsOfChildren(t, p);
    }
  }

  lemma OwnParam(p: GenericParam)
    ensures ParamsOf(TParam(p)) == {p}
  {
  }

  lemma {:induction false} ListedParamIsAt(t: Tree, p: GenericParam) returns (path: seq<nat>)
    requires p in ParamsOf(t)
    ensures At(t, path) == Some(TParam(p))
    decreases t
  {
    hide ParamsOf;
    if t.TParam? {
      OwnParam(t.param);
      path := [];
    } else {
      ParamsOfChildren(t, p);
      var i :| 0 <= i < |Children(t)| && p in ParamsOf(Children(t)[i]);
      var rest := ListedParamIsAt(Children(t)[i], p);
      AtChild(t, i, rest);
      path := [i] + rest;
    }
  }

  /** A parameter is listed exactly when it stands at some position. */
  lemma ParamsAreAtPositions(t: Tree, p: GenericParam)
    ensures p in ParamsOf(t) <==> exists path :: At(t, path) == Some(TParam(p))
  {
    if p in ParamsOf(t) {
      var path := ListedParamIsAt(t, p);
    }
    if path :| At(t, path) == Some(TParam(p)) {
      ParamAtIsListed(t, path, p);
    }
  }

  /** Substitution leaves a type alone when it maps none of its parameters. */
  lemma UnmappedIsUnchanged(env: Env, t: Tree)
    requires forall p :: p in ParamsOf(t) ==> p !in env
    ensures SubstTree(env, t) == t
  {
    hide ParamsOf, SubstTree;
    forall path
      ensures KeptAt(env, t, t, path)
    {
      var s := At(t, path);
      if s.Some? && s.value.TParam? {
        ParamAtIsListed(t, path, s.value.param);
      }
    }
    SubstIff(env, t, t);
  }

  lemma AllUnmappedUnchanged(env: Env, ts: seq<Tree>)
    requires forall p :: p in ParamsOfAll(ts) ==> p !in env
    ensures SubstTrees(env, ts) == ts
  {
    hide ParamsOf, ParamsOfAll, SubstTree, SubstTrees;
    forall i | 0 <= i < |ts|
      ensures SubstTrees(env, ts)[i] == ts[i]
    {
      forall p | p in ParamsOf(ts[i])
        ensures p !in env
      {
        ParamsOfAllHolds(ts, p);
      }
      UnmappedIsUnchanged(env, ts[i]);
      SubstTreesAt(env, ts, i);
    }
  }

  lemma {:induction false} PredicatesUnmapped(env: Env, ps: seq<PredicateTree>)
    requires forall p :: p in ParamsOfPredicates(ps) ==> p !in env
    ensures SubstPredicates(env, ps) == ps
  {
    if ps != [] {
      hide ParamsOf, ParamsOfAll, SubstTree, SubstTrees;
      var front, last := ps[..|ps| - 1], ps[|ps| - 1];
      PredicatesUnmapped(env, front);
      UnmappedIsUnchanged(env, last.selfTy);
      AllUnmappedUnchanged(env, last.traitArgs);
      assert ps == front + [last];
    }
  }

  /** The same for whole signatures. */
  lemma UnmappedSigIsUnchanged(env: Env, s: SigTree)
    requires forall p :: p in ParamsOfSig(s) ==> p !in env
    ensures SubstSig(env, s) == s
  {
    hide ParamsOf, ParamsOfAll, ParamsOfPredicates, SubstTree, SubstTrees, SubstPredicates;
    if s.ownerSelfTy.Some? {
      UnmappedIsUnchanged(env, s.ownerSelfTy.value);
    }
    if s.receiver.Some? {
      UnmappedIsUnchanged(env, s.receiver.value.ownerSelfTy);
    }
    AllUnmappedUnchanged(env, s.params);
    UnmappedIsUnchanged(env, s.ret);
    PredicatesUnmapped(env, s.parameterEnv.predicates);
  }
}
