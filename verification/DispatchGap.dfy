/** The static search does not follow abstract dispatch. This is a concrete model
    that validation accepts and whose runtime contracts still forbid a frame that
    an abstract method dispatches to. */
module DispatchGap {
  import opened Wrappers
  import opened ClassModel
  import opened StaticCheck
  import opened Contracts
  import opened ContractSession
  import opened SessionReference
  import opened StaticSoundness

  const TOP: Key := ["app", "Top"]
  const MIDDLE: Key := ["app", "Middle"]
  const LEAF: Key := ["app", "Leaf"]
  const NOWHERE := Span(0, 0)

  function CratePath(segments: seq<string>): Path {
    Path("crate", segments, NOWHERE)
  }

  const RULE := CratePath(["Leaf", "run"])

  /** `Top::run` forbids `Leaf::run`; `Middle::run` is an abstract override of it and `Leaf::run` a leaf one. */
  const GAP_MODEL: Model := Model(
    map[
      TOP := Entry("app.sage", ["app"],
                   ClassDecl(Class, None, [Method("run", Query, false, Some([ForbidTransitive(RULE)]))])),
      MIDDLE :=
        Entry("app.sage", ["app"], ClassDecl(Abstract, Some(CratePath(["Top"])), [Method("run", Query, true, None)])),
      LEAF := Entry("app.sage", ["app"],
                    ClassDecl(Class, Some(CratePath(["Middle"])), [Method("run", Query, true, Some([]))]))
    ],
    map[])

  lemma Distinct()
    ensures TOP != MIDDLE && TOP != LEAF && MIDDLE != LEAF
    ensures forall name: string ::
      TOP + [name] != MIDDLE + [name] && TOP + [name] != LEAF + [name] && MIDDLE + [name] != LEAF + [name]
  {
    assert TOP[1] != MIDDLE[1] && TOP[1] != LEAF[1] && MIDDLE[1] != LEAF[1];
    forall name: string
      ensures TOP + [name] != MIDDLE + [name] && TOP + [name] != LEAF + [name] && MIDDLE + [name] != LEAF + [name]
    {
      assert (TOP + [name])[1] == TOP[1] && (MIDDLE + [name])[1] == MIDDLE[1] && (LEAF + [name])[1] == LEAF[1];
    }
  }

  lemma Bases()
    ensures GAP_MODEL.classes.Keys == {TOP, MIDDLE, LEAF}
    ensures Base(GAP_MODEL, TOP) == None && Base(GAP_MODEL, MIDDLE) == Some(TOP)
         && Base(GAP_MODEL, LEAF) == Some(MIDDLE)
  {
    Distinct();
    assert ["app"] + ["Top"] == TOP && ["app"] + ["Middle"] == MIDDLE;
  }

  lemma Chains()
    ensures Ancestors(GAP_MODEL, TOP) == [TOP]
    ensures Ancestors(GAP_MODEL, MIDDLE) == [MIDDLE, TOP]
    ensures Ancestors(GAP_MODEL, LEAF) == [LEAF, MIDDLE, TOP]
  {
    Distinct();
    Bases();
    assert AncestorsFrom(GAP_MODEL, TOP, [MIDDLE]) == [MIDDLE] + [TOP];
    assert [LEAF] + [MIDDLE] == [LEAF, MIDDLE];
    assert AncestorsFrom(GAP_MODEL, TOP, [LEAF, MIDDLE]) == [LEAF, MIDDLE] + [TOP];
    assert AncestorsFrom(GAP_MODEL, MIDDLE, [LEAF]) == AncestorsFrom(GAP_MODEL, TOP, [LEAF, MIDDLE]);
    assert [] + [LEAF] == [LEAF] && [] + [MIDDLE] == [MIDDLE] && [] + [TOP] == [TOP];
  }

  function OnlyMethod(key: Key): Method
    requires key in GAP_MODEL.classes
  {
    GAP_MODEL.classes[key].decl.methods[0]
  }

  lemma Declared(key: Key)
    requires key in GAP_MODEL.classes
    ensures GAP_MODEL.classes[key].decl.methods == [OnlyMethod(key)] && OnlyMethod(key).name == "run"
    ensures Declares(GAP_MODEL, key, "run")
    ensures Selected(GAP_MODEL, key, "run") == Some(key + ["run"])
    ensures FindMethod(GAP_MODEL.classes[key].decl.methods, "run") == Some(OnlyMethod(key))
  {
    Distinct();
    assert GAP_MODEL.classes[key].decl.methods[0].name == "run";
    DeclaredIsSelected(GAP_MODEL, key, "run");
  }

  lemma AllDeclared()
    ensures forall key :: key in GAP_MODEL.classes ==> Selected(GAP_MODEL, key, "run") == Some(key + ["run"])
  {
    forall key | key in GAP_MODEL.classes {
      Declared(key);
    }
  }

  lemma LeafImplementations()
    ensures Implementations(GAP_MODEL, LEAF, "run") == {LEAF + ["run"]}
  {
    Distinct();
    Bases();
    Chains();
    AllDeclared();
    hide Ancestors, Selected;
    var found := set d | d in GAP_MODEL.classes && LEAF in Ancestors(GAP_MODEL, d) :: d;
    assert found == {LEAF} by {
      assert LEAF in [LEAF, MIDDLE, TOP] && LEAF !in [MIDDLE, TOP] && LEAF !in [TOP];
    }
    forall k
      ensures k in Implementations(GAP_MODEL, LEAF, "run") <==> k == LEAF + ["run"]
    {
      if k in Implementations(GAP_MODEL, LEAF, "run") {
        var d :| d in GAP_MODEL.classes && LEAF in Ancestors(GAP_MODEL, d) && Selected(GAP_MODEL, d, "run").Some?
          && Selected(GAP_MODEL, d, "run").value == k;
        assert d in found;
      }
      assert LEAF in found;
    }
  }

  lemma RuleTargets()
    ensures Targets(GAP_MODEL, TOP, GAP_MODEL.classes[TOP], RULE) == Ok({LEAF + ["run"]})
  {
    hide Implementations, Selected;
    Bases();
    AllDeclared();
    LeafImplementations();
    assert ["app"] + ["Leaf", "run"] == ["app", "Leaf", "run"];
    assert ["app", "Leaf", "run"][..2] == LEAF;
    assert GAP_MODEL.classes[TOP].namespace == ["app"];
    assert CalleeOf(GAP_MODEL, TOP, GAP_MODEL.classes[TOP], RULE) == Ok((LEAF, "run"));
    assert LEAF in GAP_MODEL.classes && Selected(GAP_MODEL, LEAF, "run") == Some(LEAF + ["run"]);
    assert {LEAF + ["run"]} + {LEAF + ["run"]} == {LEAF + ["run"]};
  }

  /** What the proofs below use of the model in place of its text. */
  lemma Declarations(key: Key)
    requires key in GAP_MODEL.classes
    ensures key == TOP || key == MIDDLE || key == LEAF
    ensures GAP_MODEL.classes[key].namespace == ["app"]
    ensures GAP_MODEL.classes[key].decl.kind == if key == MIDDLE then Abstract else Class
    ensures GAP_MODEL.classes[key].decl.base ==
      if key == TOP then None else Some(CratePath([if key == MIDDLE then "Top" else "Middle"]))
    ensures OnlyMethod(key).kind == Query && (OnlyMethod(key).isOverride <==> key != TOP)
    ensures OnlyMethod(key).envelope ==
      if key == TOP then Some([ForbidTransitive(RULE)]) else if key == MIDDLE then None else Some([])
  {
    Distinct();
  }

  lemma Overrides(key: Key)
    requires key in GAP_MODEL.classes
    ensures OverrideAccepted(GAP_MODEL, key, OnlyMethod(key))
  {
    hide GAP_MODEL, RULE, TOP, MIDDLE, LEAF, OnlyMethod, Ancestors, Base, Selected, CratePath;
    Declarations(key);
    Bases();
    Distinct();
    Declared(key);
    if key != TOP {
      var base := Base(GAP_MODEL, key).value;
      Declared(base);
      Declarations(base);
      OperationParts(base, "run");
    }
  }

  lemma Envelopes(key: Key)
    requires key in GAP_MODEL.classes
    ensures EnvelopeAccepted(GAP_MODEL, key, OnlyMethod(key))
  {
    hide GAP_MODEL, RULE, TOP, MIDDLE, LEAF, OnlyMethod, Targets, CratePath;
    Declarations(key);
    if key == TOP {
      RuleTargets();
    }
  }

  lemma Completeness(key: Key)
    requires key in GAP_MODEL.classes
    ensures Complete(GAP_MODEL, key)
  {
    hide GAP_MODEL, RULE, TOP, MIDDLE, LEAF, OnlyMethod, Ancestors, Selected, CratePath;
    Declarations(key);
    if key != MIDDLE {
      Declared(key);
      OperationParts(key, "run");
      forall a | a in Ancestors(GAP_MODEL, key) && a in GAP_MODEL.classes
        ensures AncestorImplemented(GAP_MODEL, key, a)
      {
        Declared(a);
      }
    }
  }

  lemma ResolvedBase(key: Key)
    requires key in GAP_MODEL.classes
    ensures BaseAccepted(GAP_MODEL, key)
  {
    Distinct();
    Chains();
    hide Ancestors;
    assert ["app"] + ["Top"] == TOP && ["app"] + ["Middle"] == MIDDLE;
  }

  lemma ClassFits(key: Key)
    requires key in GAP_MODEL.classes
    ensures ClassAccepted(GAP_MODEL, key)
  {
    hide GAP_MODEL, TOP, MIDDLE, LEAF, OnlyMethod, BaseAccepted, Complete, OverrideAccepted, EnvelopeAccepted;
    Declared(key);
    ResolvedBase(key);
    Overrides(key);
    Envelopes(key);
    Completeness(key);
  }

  lemma NothingIsCalled(caller: Key, callee: Key)
    ensures !Calls(GAP_MODEL, caller, callee)
  {
  }

  /** A request of the abstract `Middle::run` that dispatches to `Leaf::run` on the
      same receiver is an admitted run, and the session reports it although
      validation accepted the model. */
  lemma AcceptedModelForbidsItsDispatch(operations: Operations, roots: set<Key>, start: State)
    requires Resolved(GAP_MODEL, operations) && Initial(operations, roots, start)
    ensures Accepted(GAP_MODEL)
    ensures exists calls ::
      AdmittedRun(operations, roots, start, calls, true) && FindsForbidden(Run(operations, roots, start, calls))
  {
    forall key | key in GAP_MODEL.classes {
      ClassFits(key);
    }
    assert NoForbiddenPath(GAP_MODEL) by {
      forall p, path
        ensures !ForbiddenPath(GAP_MODEL, p, path)
      {
        if |path| >= 2 && CallStep(GAP_MODEL, path, 0) {
          NothingIsCalled(path[0], path[1]);
        }
      }
    }
    var rule, path := DispatchBreaksRule(operations);
    BrokenRuleIsFound(operations, true, roots, start, rule, path);
  }

  lemma TopForbidsLeaf()
    ensures var p := Prohibition(TOP + ["run"], RULE, {LEAF + ["run"]});
      Constrains(GAP_MODEL, p, MIDDLE + ["run"]) && NameOf(p.start) == "run"
  {
    hide GAP_MODEL, TOP, MIDDLE, LEAF, RULE, CratePath, OnlyMethod, Ancestors, Implementations, Targets;
    Bases();
    Chains();
    RuleTargets();
    Declared(TOP);
    Declared(MIDDLE);
    Declarations(TOP);
    OperationParts(TOP, "run");
    var p := Prohibition(TOP + ["run"], RULE, {LEAF + ["run"]});
    assert StatedBy(GAP_MODEL, TOP, GAP_MODEL.classes[TOP].decl.methods[0], p);
    ImplementationIffAncestor(GAP_MODEL, TOP, MIDDLE, "run");
  }

  lemma MiddleDispatches(operations: Operations)
    requires Resolved(GAP_MODEL, operations)
    ensures MIDDLE + ["run"] in operations && LEAF + ["run"] in operations[MIDDLE + ["run"]].dispatches
  {
    hide GAP_MODEL, TOP, MIDDLE, LEAF, OnlyMethod, Ancestors, Selected, Implementations, RulesIn, InheritedRules;
    hide DeclaredEffects, UncheckedIn, FindMethod, RULE, CratePath;
    Distinct();
    Bases();
    Chains();
    Declared(MIDDLE);
    Declared(LEAF);
    Declarations(MIDDLE);
    OperationParts(MIDDLE, "run");
    var caller := MIDDLE + ["run"];
    assert IsOperation(GAP_MODEL, caller);
    ImplementationIffAncestor(GAP_MODEL, MIDDLE, LEAF, "run");
    assert operations[caller] == ContractOf(GAP_MODEL, MIDDLE, OnlyMethod(MIDDLE));
  }

  lemma DispatchBreaksRule(operations: Operations) returns (rule: CallPermission, path: seq<Key>)
    requires Resolved(GAP_MODEL, operations) && WellFormed(GAP_MODEL)
    ensures BreaksRule(operations, true, rule, path)
  {
    hide WellFormed, Constrains, Resolved, Permits;
    var caller, callee := MIDDLE + ["run"], LEAF + ["run"];
    path := [caller, callee];
    var p := Prohibition(TOP + ["run"], RULE, {callee});
    OperationParts(TOP, "run");
    OperationParts(MIDDLE, "run");
    TopForbidsLeaf();
    MiddleDispatches(operations);
    Bases();
    rule := RuleOf(GAP_MODEL, p);
    RulesMatchStaticProhibitions(GAP_MODEL, operations, caller, rule);
    assert AdmitsAt(operations, true, path, 0);
  }
}
