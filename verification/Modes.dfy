/** The hierarchy of enforcement modes: Strict acceptance gives Inferred acceptance; Inferred
    acceptance gives Permissive acceptance exactly when the unannotated functions keep quiet
    where Permissive checks them against nothing. */
module Modes {
  import opened Capabilities
  import opened Wrappers
  import opened Language
  import opened HotParams
  import opened Inference
  import opened Enforcement
  import opened Acceptance

  // ----- Strict implies Inferred -----

  lemma HotExtraWithoutDeny(p: Program, hot: set<Position>, w: CapMap, d: FnDecl, callee: string, args: seq<Arg>,
                            isMethod: bool, inDeny: bool)
    ensures HotExtra(p, hot, w, d, callee, args, isMethod, false)
         <= HotExtra(p, hot, w, d, callee, args, isMethod, inDeny)
  {
    var offset := Offset(p, callee, isMethod);
    forall c | c in HotExtra(p, hot, w, d, callee, args, isMethod, false)
      ensures c in HotExtra(p, hot, w, d, callee, args, isMethod, inDeny)
    {
      var j: nat :| j < |args| && (callee, j + offset) in hot && c in Charge(ResolveArg(p, hot, w, d, args[j]), false);
      assert c in Charge(ResolveArg(p, hot, w, d, args[j]), inDeny);
    }
  }

  /** Enforcement never demands less than inference collects. */
  lemma {:induction false} CollectedIsWithinDemand(p: Program, hot: set<Position>, w: CapMap, d: FnDecl, inDeny: bool,
                                                   c: Cmd)
    requires d.kind != Handler
    ensures Collect(p, hot, w, d, c) <= Demand(p, hot, w, d, inDeny, c)
    decreases c
  {
    match c
    case Skip =>
    case Return =>
    case PathCall(_) =>
    case Call(n, args) => HotExtraWithoutDeny(p, hot, w, d, n, args, false, inDeny);
    case MethodCall(n, args) => HotExtraWithoutDeny(p, hot, w, d, n, args, true, inDeny);
    case Seq(a, b) =>
      CollectedIsWithinDemand(p, hot, w, d, inDeny, a);
      CollectedIsWithinDemand(p, hot, w, d, inDeny, b);
    case While(a, b) =>
      CollectedIsWithinDemand(p, hot, w, d, inDeny, a);
      CollectedIsWithinDemand(p, hot, w, d, inDeny, b);
    case If(g, a, b) =>
      CollectedIsWithinDemand(p, hot, w, d, inDeny, g);
      CollectedIsWithinDemand(p, hot, w, d, inDeny, a);
      CollectedIsWithinDemand(p, hot, w, d, inDeny, b);
    case Deny(_, b) => CollectedIsWithinDemand(p, hot, w, d, true, b);
  }

  lemma NothingIsSubsetOfNothing(a: CapSet)
    ensures IsSubsetOf(a, {}) <==> a == {}
  {
    assert forall c: Capability :: !SatisfiesRequired({}, c);
  }

  /** Under Strict, an unannotated function that passes collects nothing. */
  lemma StrictLeavesNothing(p: Program, hot: set<Position>, n: string)
    requires Inferable(p, n) && NoErrors(FunctionDiags(p, Strict, hot, DeclaredMap(p), n))
    ensures Collect(p, hot, DeclaredMap(p), p.fns[n], p.fns[n].body) == {}
  {
    var d := p.fns[n];
    BodyCleanIff(p, hot, DeclaredMap(p), d, At({}, true, false), d.body);
    NothingIsSubsetOfNothing(Demand(p, hot, DeclaredMap(p), d, false, d.body));
    CollectedIsWithinDemand(p, hot, DeclaredMap(p), d, false, d.body);
  }

  /** So nothing is ever demanded of it. */
  lemma {:induction false} StrictDemandsNothing(p: Program, hot: set<Position>, path: seq<string>, x: Capability)
    requires forall n | n in p.fns :: NoErrors(FunctionDiags(p, Strict, hot, DeclaredMap(p), n))
    requires |path| > 0 && Inferable(p, path[0])
    ensures !IsDemandPath(p, hot, path, x)
    decreases |path|
  {
    var n := path[0];
    var d := p.fns[n];
    StrictLeavesNothing(p, hot, n);
    CollectIsLinear(p, hot, DeclaredMap(p), d, d.body, x);
    if |path| > 1 && DrawsOn(p, hot, n, path[1]) {
      var g := path[1];
      assert x !in Lookup(DeclaredMap(p), g);
      if Inferable(p, g) {
        StrictDemandsNothing(p, hot, path[1..], x);
        if IsDemandPath(p, hot, path, x) {
          DemandPathTail(p, hot, path, x);
        }
      } else {
        CeilingStopsPath(p, hot, path, x);
      }
    }
  }

  /** A path through a ceiling ends there. */
  lemma CeilingStopsPath(p: Program, hot: set<Position>, path: seq<string>, x: Capability)
    requires |path| > 1 && !Inferable(p, path[1]) && x !in Lookup(DeclaredMap(p), path[1])
    ensures !IsDemandPath(p, hot, path, x)
  {
    if |path| > 2 {
      assert !DrawsOn(p, hot, path[1], path[2]);
    }
  }

  lemma StrictMapIsInferred(p: Program, hot: set<Position>, w: CapMap, n: string)
    requires forall m | m in p.fns :: NoErrors(FunctionDiags(p, Strict, hot, DeclaredMap(p), m))
    requires IsInferredMap(p, hot, w)
    ensures Lookup(w, n) == Lookup(DeclaredMap(p), n)
  {
    if n in p.fns && !Inferable(p, n) {
      CeilingIsExact(p, hot, w, n);
    } else {
      forall x
        ensures x !in Lookup(w, n)
      {
        forall path: seq<string> | |path| > 0 && path[0] == n
          ensures !IsDemandPath(p, hot, path, x)
        {
          if n in p.fns {
            StrictDemandsNothing(p, hot, path, x);
          } else {
            assert |path| > 1 ==> !DrawsOn(p, hot, path[0], path[1]);
          }
        }
      }
    }
  }

  /** The walk reads the map only through lookups. */
  ghost predicate SameLookups(w: CapMap, v: CapMap) {
    forall n :: Lookup(w, n) == Lookup(v, n)
  }

  lemma {:induction false} SameArgsDiags(p: Program, w: CapMap, v: CapMap, d: FnDecl, at: At, args: seq<Arg>)
    requires SameLookups(w, v)
    ensures ArgsDiags(p, w, d, at, args) == ArgsDiags(p, v, d, at, args)
  {
    if args != [] {
      SameArgsDiags(p, w, v, d, at, args[..|args| - 1]);
      var a := args[|args| - 1];
      if a.Ident? {
        assert Lookup(w, a.name) == Lookup(v, a.name);
      }
    }
  }

  lemma SameHotExtra(p: Program, hot: set<Position>, w: CapMap, v: CapMap, d: FnDecl, callee: string, args: seq<Arg>,
                     isMethod: bool, inDeny: bool)
    requires SameLookups(w, v)
    ensures HotExtra(p, hot, w, d, callee, args, isMethod, inDeny)
            == HotExtra(p, hot, v, d, callee, args, isMethod, inDeny)
  {
    assert forall j | 0 <= j < |args| :: ResolveArg(p, hot, w, d, args[j]) == ResolveArg(p, hot, v, d, args[j]);
  }

  lemma SameSiteDiags(p: Program, hot: set<Position>, w: CapMap, v: CapMap, d: FnDecl, at: At, n: string,
                      isBuiltinName: bool, extra: CapSet)
    requires SameLookups(w, v)
    ensures NameDiags(p, w, at, n, isBuiltinName, extra) == NameDiags(p, v, at, n, isBuiltinName, extra)
    ensures DirectDiags(p, hot, w, d, at, n) == DirectDiags(p, hot, v, d, at, n)
  {
    hide HotExtra, ArgsDiags, IsSubsetOf, ExcessOver;
    assert Lookup(w, n) == Lookup(v, n);
  }

  lemma {:induction false} SameBodyDiags(p: Program, hot: set<Position>, w: CapMap, v: CapMap, d: FnDecl, at: At,
                                         c: Cmd)
    requires SameLookups(w, v)
    ensures BodyDiags(p, hot, w, d, at, c) == BodyDiags(p, hot, v, d, at, c)
    decreases c
  {
    hide NameDiags, DirectDiags, ArgsDiags, HotExtra, SameLookups, Without;
    match c
    case Skip =>
    case Return =>
    case PathCall(_) =>
    case Call(n, args) =>
      SameArgsDiags(p, w, v, d, at, args);
      SameHotExtra(p, hot, w, v, d, n, args, false, at.inDeny);
      SameSiteDiags(p, hot, w, v, d, at, n, true, HotExtra(p, hot, w, d, n, args, false, at.inDeny));
    case MethodCall(n, args) =>
      SameArgsDiags(p, w, v, d, at, args);
      SameHotExtra(p, hot, w, v, d, n, args, true, at.inDeny);
      SameSiteDiags(p, hot, w, v, d, at, n, false, HotExtra(p, hot, w, d, n, args, true, at.inDeny));
    case Seq(a, b) =>
      SameBodyDiags(p, hot, w, v, d, at, a);
      SameBodyDiags(p, hot, w, v, d, at, b);
    case While(a, b) =>
      SameBodyDiags(p, hot, w, v, d, at, a);
      SameBodyDiags(p, hot, w, v, d, at, b);
    case If(g, a, b) =>
      SameBodyDiags(p, hot, w, v, d, at, g);
      SameBodyDiags(p, hot, w, v, d, at, a);
      SameBodyDiags(p, hot, w, v, d, at, b);
    case Deny(denied, b) => SameBodyDiags(p, hot, w, v, d, At(Without(at.caps, denied), true, true), b);
  }

  /** No error in Strict gives none in Inferred, for every program of the language,
      `deny!` blocks and function values included. */
  lemma StrictImpliesInferred(p: Program, hot: set<Position>, w: CapMap)
    requires p.WellFormed() && Accepts(p, Strict, hot, DeclaredMap(p)) && IsInferredMap(p, hot, w)
    ensures Accepts(p, Inferred, hot, w)
  {
    AcceptsIffFunctionsClean(p, Strict, hot, DeclaredMap(p));
    AcceptsIffFunctionsClean(p, Inferred, hot, w);
    forall n
      ensures Lookup(w, n) == Lookup(DeclaredMap(p), n)
    {
      StrictMapIsInferred(p, hot, w, n);
    }
    forall n | n in p.fns
      ensures NoErrors(FunctionDiags(p, Inferred, hot, w, n))
    {
      assert Entry(p, Inferred, w, n) == Entry(p, Strict, DeclaredMap(p), n);
      SameBodyDiags(p, hot, w, DeclaredMap(p), p.fns[n], Entry(p, Inferred, w, n), p.fns[n].body);
    }
  }

  // ----- Inferred and Permissive -----

  /** Nothing in `c` is checked against the empty set: no gated path call, and no `deny!`
      block that demands anything. */
  predicate Quiet(p: Program, hot: set<Position>, d: FnDecl, c: Cmd) {
    match c
    case PathCall(_) => false
    case Seq(a, b) => Quiet(p, hot, d, a) && Quiet(p, hot, d, b)
    case If(g, a, b) => Quiet(p, hot, d, g) && Quiet(p, hot, d, a) && Quiet(p, hot, d, b)
    case While(g, b) => Quiet(p, hot, d, g) && Quiet(p, hot, d, b)
    case Deny(_, b) => Demand(p, hot, DeclaredMap(p), d, true, b) == {}
    case _ => true
  }

  /** Permissive on an unannotated function: the base of a `deny!` block is the empty set. */
  lemma {:induction false} QuietIffClean(p: Program, hot: set<Position>, d: FnDecl, c: Cmd)
    ensures NoErrors(BodyDiags(p, hot, DeclaredMap(p), d, At({}, false, false), c)) <==> Quiet(p, hot, d, c)
  {
    var w, at := DeclaredMap(p), At({}, false, false);
    match c
    case Skip =>
    case Return =>
    case PathCall(cap) => NoErrorsIf(true, PathDenied(cap));
    case Call(_, args) => UnenforcedArgs(p, w, d, at, args);
    case MethodCall(_, args) => UnenforcedArgs(p, w, d, at, args);
    case Seq(a, b) =>
      QuietIffClean(p, hot, d, a);
      QuietIffClean(p, hot, d, b);
      NoErrorsOfBoth(BodyDiags(p, hot, w, d, at, a), BodyDiags(p, hot, w, d, at, b));
    case While(a, b) =>
      QuietIffClean(p, hot, d, a);
      QuietIffClean(p, hot, d, b);
      NoErrorsOfBoth(BodyDiags(p, hot, w, d, at, a), BodyDiags(p, hot, w, d, at, b));
    case If(g, a, b) =>
      QuietIffClean(p, hot, d, g);
      QuietIffClean(p, hot, d, a);
      QuietIffClean(p, hot, d, b);
      NoErrorsOfBoth(BodyDiags(p, hot, w, d, at, g), BodyDiags(p, hot, w, d, at, a));
      NoErrorsOfBoth(BodyDiags(p, hot, w, d, at, g) + BodyDiags(p, hot, w, d, at, a), BodyDiags(p, hot, w, d, at, b));
    case Deny(denied, b) =>
      var inner := At({}, true, true);
      assert Without({}, denied) == {};
      BodyCleanIff(p, hot, w, d, inner, b);
      NothingIsSubsetOfNothing(Demand(p, hot, w, d, true, b));
      NoErrorsOfBoth(if denied == {} then [EmptyDeny] else [], BodyDiags(p, hot, w, d, inner, b));
  }

  /** A smaller map demands less at every call. */
  ghost predicate Below(v: CapMap, w: CapMap) {
    forall n :: Lookup(v, n) <= Lookup(w, n)
  }

  lemma SubsetShrinks(a: CapSet, b: CapSet, caps: CapSet)
    requires a <= b && IsSubsetOf(b, caps)
    ensures IsSubsetOf(a, caps)
  {
  }

  lemma SmallerSiteDemand(p: Program, hot: set<Position>, v: CapMap, w: CapMap, d: FnDecl, inDeny: bool, c: Cmd)
    requires Below(v, w) && (c.Call? || c.MethodCall?)
    ensures Demand(p, hot, v, d, inDeny, c) <= Demand(p, hot, w, d, inDeny, c)
  {
    var isMethod := c.MethodCall?;
    forall n
      ensures Charge(ResolveName(p, hot, v, d, n), inDeny) <= Charge(ResolveName(p, hot, w, d, n), inDeny)
    {
      assert Lookup(v, n) <= Lookup(w, n);
    }
    var offset := Offset(p, c.callee, isMethod);
    forall x | x in HotExtra(p, hot, v, d, c.callee, c.args, isMethod, inDeny)
      ensures x in HotExtra(p, hot, w, d, c.callee, c.args, isMethod, inDeny)
    {
      var j: nat :| j < |c.args| && (c.callee, j + offset) in hot
        && x in Charge(ResolveArg(p, hot, v, d, c.args[j]), inDeny);
      assert x in Charge(ResolveArg(p, hot, w, d, c.args[j]), inDeny);
    }
    assert ArgsAuthority(v, d, c.args) <= ArgsAuthority(w, d, c.args);
  }

  lemma {:induction false} SmallerMapStaysClean(p: Program, hot: set<Position>, v: CapMap, w: CapMap, d: FnDecl,
                                                at: At, c: Cmd)
    requires Below(v, w) && at.enforcing && NoErrors(BodyDiags(p, hot, w, d, at, c))
    ensures NoErrors(BodyDiags(p, hot, v, d, at, c))
    decreases c
  {
    match c
    case Skip =>
    case Return =>
    case PathCall(_) =>
    case Seq(a, b) =>
      NoErrorsOfBoth(BodyDiags(p, hot, w, d, at, a), BodyDiags(p, hot, w, d, at, b));
      SmallerMapStaysClean(p, hot, v, w, d, at, a);
      SmallerMapStaysClean(p, hot, v, w, d, at, b);
    case While(a, b) =>
      NoErrorsOfBoth(BodyDiags(p, hot, w, d, at, a), BodyDiags(p, hot, w, d, at, b));
      SmallerMapStaysClean(p, hot, v, w, d, at, a);
      SmallerMapStaysClean(p, hot, v, w, d, at, b);
    case If(g, a, b) =>
      NoErrorsOfBoth(BodyDiags(p, hot, w, d, at, g) + BodyDiags(p, hot, w, d, at, a), BodyDiags(p, hot, w, d, at, b));
      NoErrorsOfBoth(BodyDiags(p, hot, w, d, at, g), BodyDiags(p, hot, w, d, at, a));
      SmallerMapStaysClean(p, hot, v, w, d, at, g);
      SmallerMapStaysClean(p, hot, v, w, d, at, a);
      SmallerMapStaysClean(p, hot, v, w, d, at, b);
    case Deny(denied, b) =>
      var inner := At(Without(at.caps, denied), true, true);
      NoErrorsOfBoth(if denied == {} then [EmptyDeny] else [], BodyDiags(p, hot, w, d, inner, b));
      SmallerMapStaysClean(p, hot, v, w, d, inner, b);
    case _ =>
      BodyCleanIff(p, hot, w, d, at, c);
      BodyCleanIff(p, hot, v, d, at, c);
      SmallerSiteDemand(p, hot, v, w, d, at.inDeny, c);
      SubsetShrinks(Demand(p, hot, v, d, at.inDeny, c), Demand(p, hot, w, d, at.inDeny, c), at.caps);
  }

  /** Given Inferred acceptance, Permissive accepts iff every unannotated function is quiet. */
  lemma InferredImpliesPermissiveExactly(p: Program, hot: set<Position>, w: CapMap)
    requires p.WellFormed() && Accepts(p, Inferred, hot, w)
    ensures Accepts(p, Permissive, hot, DeclaredMap(p)) <==>
              forall n | n in p.fns && !p.fns[n].Annotated() :: Quiet(p, hot, p.fns[n], p.fns[n].body)
  {
    AcceptsIffFunctionsClean(p, Inferred, hot, w);
    AcceptsIffFunctionsClean(p, Permissive, hot, DeclaredMap(p));
    InferredMapIsClosed(p, hot, w);
    assert Below(DeclaredMap(p), w);
    forall n | n in p.fns
      ensures NoErrors(FunctionDiags(p, Permissive, hot, DeclaredMap(p), n)) <==>
                (p.fns[n].Annotated() || Quiet(p, hot, p.fns[n], p.fns[n].body))
    {
      var d := p.fns[n];
      if d.Annotated() {
        assert NoErrors(FunctionDiags(p, Inferred, hot, w, n));
        SmallerMapStaysClean(p, hot, DeclaredMap(p), w, d, At(d.Declared(), true, false), d.body);
      } else {
        QuietIffClean(p, hot, d, d.body);
      }
    }
  }

  predicate BareCallsOnly(c: Cmd) {
    match c
    case PathCall(_) => false
    case Seq(a, b) => BareCallsOnly(a) && BareCallsOnly(b)
    case If(g, a, b) => BareCallsOnly(g) && BareCallsOnly(a) && BareCallsOnly(b)
    case While(g, b) => BareCallsOnly(g) && BareCallsOnly(b)
    case Deny(_, _) => false
    case _ => true
  }

  lemma {:induction false} BareCallsAreQuiet(p: Program, hot: set<Position>, d: FnDecl, c: Cmd)
    requires BareCallsOnly(c)
    ensures Quiet(p, hot, d, c)
  {
    match c
    case Seq(a, b) =>
      BareCallsAreQuiet(p, hot, d, a);
      BareCallsAreQuiet(p, hot, d, b);
    case While(a, b) =>
      BareCallsAreQuiet(p, hot, d, a);
      BareCallsAreQuiet(p, hot, d, b);
    case If(g, a, b) =>
      BareCallsAreQuiet(p, hot, d, g);
      BareCallsAreQuiet(p, hot, d, a);
      BareCallsAreQuiet(p, hot, d, b);
    case _ =>
  }

  /** Without `deny!` and qualified paths, Permissive is the laxer mode. */
  lemma InferredImpliesPermissive(p: Program, hot: set<Position>, w: CapMap)
    requires p.WellFormed() && Accepts(p, Inferred, hot, w)
    requires forall n | n in p.fns :: BareCallsOnly(p.fns[n].body)
    ensures Accepts(p, Permissive, hot, DeclaredMap(p))
  {
    InferredImpliesPermissiveExactly(p, hot, w);
    forall n | n in p.fns
      ensures Quiet(p, hot, p.fns[n], p.fns[n].body)
    {
      BareCallsAreQuiet(p, hot, p.fns[n], p.fns[n].body);
    }
  }

  /** An unannotated helper that writes a file inside a `deny!(net)`. */
  function DenyHelper(): Program {
    Program(map[
        "main" := FnDecl(Free, Some({FsWrite}), [], Call("helper", [])),
        "helper" := FnDecl(Free, None, [], Deny({Net}, Call("file_write", [Plain])))
      ], ["main", "helper"], map["file_write" := FsWrite], {"file_write"})
  }

  lemma HelperInferred(w: CapMap)
    requires IsInferredMap(DenyHelper(), {}, w)
    ensures Lookup(w, "helper") == {FsWrite} && Lookup(w, "file_write") == {}
  {
    var p := DenyHelper();
    var v: CapMap := map["main" := {FsWrite}, "helper" := {FsWrite}];
    var helper := p.fns["helper"];
    assert ArgsNeed(p, [Plain]) == {};
    assert Collect(p, {}, v, helper, helper.body) == {FsWrite};
    assert Collect(p, {}, map[], helper, helper.body) == {FsWrite};
    assert ClosedMap(p, {}, v);
    hide Collect, ArgsNeed, ClosedMap;
    forall n, x | x in Lookup(w, n)
      ensures x in Lookup(v, n)
    {
      var path :| IsDemandPath(p, {}, path, x) && path[0] == n;
      DemandsAreLeast(p, {}, v, path, x);
    }
    DemandsBase(p, {}, "helper", FsWrite);
  }

  lemma HelperIsFirstOrder()
    ensures FirstOrder(DenyHelper())
  {
    var p := DenyHelper();
    assert Calls(p.fns["helper"].body) == [CallSite("file_write", [Plain], false)];
    assert Calls(p.fns["main"].body) == [CallSite("helper", [], false)];
  }

  lemma HelperBodyClean(w: CapMap)
    requires Lookup(w, "helper") == {FsWrite} && Lookup(w, "file_write") == {}
    ensures NoErrors(FunctionDiags(DenyHelper(), Inferred, {}, w, "helper"))
  {
    var p := DenyHelper();
    var helper := p.fns["helper"];
    var call := Call("file_write", [Plain]);
    HelperCallClean(w);
    hide NameDiags, DirectDiags, ArgsDiags, HotExtra, Without;
    assert BodyDiags(p, {}, w, helper, At({FsWrite}, true, false), Deny({Net}, call)) == [];
  }

  lemma HelperCallClean(w: CapMap)
    requires Lookup(w, "file_write") == {}
    ensures BodyDiags(DenyHelper(), {}, w, DenyHelper().fns["helper"], At(Without({FsWrite}, {Net}), true, true),
                      Call("file_write", [Plain])) == []
  {
    var p := DenyHelper();
    var helper, at := p.fns["helper"], At(Without({FsWrite}, {Net}), true, true);
    assert SatisfiesRequired(at.caps, FsWrite) by {
      assert FsWrite.Satisfies(FsWrite) && FsWrite in at.caps;
    }
    hide Without, SatisfiesRequired;
    assert ArgsDiags(p, w, helper, at, [Plain]) == [] by {
      assert [Plain][..0] == [];
    }
    assert HotExtra(p, {}, w, helper, "file_write", [Plain], false, true) == {};
    hide HotExtra, ArgsDiags;
    assert NameDiags(p, w, at, "file_write", true, {}) == [];
    assert DirectDiags(p, {}, w, helper, at, "file_write") == [];
  }

  lemma MainBodyClean(w: CapMap)
    requires Lookup(w, "helper") == {FsWrite}
    ensures NoErrors(FunctionDiags(DenyHelper(), Inferred, {}, w, "main"))
  {
    assert IsSubsetOf({FsWrite}, {FsWrite});
    hide HotExtra, ExcessOver;
    assert HotExtra(DenyHelper(), {}, w, DenyHelper().fns["main"], "helper", [], false, false) == {} by {
      NoArgsNoExtra(DenyHelper(), {}, w, DenyHelper().fns["main"], "helper", false, false);
    }
  }

  lemma NoArgsNoExtra(p: Program, hot: set<Position>, w: CapMap, d: FnDecl, n: string, isMethod: bool, inDeny: bool)
    ensures HotExtra(p, hot, w, d, n, [], isMethod, inDeny) == {}
  {
  }

  lemma HelperPassesInferred(w: CapMap)
    requires IsHotSet(DenyHelper(), {}) && IsInferredMap(DenyHelper(), {}, w)
    ensures DenyHelper().WellFormed() && Accepts(DenyHelper(), Inferred, {}, w)
  {
    HelperInferred(w);
    HelperBodyClean(w);
    MainBodyClean(w);
    var p := DenyHelper();
    assert p.fns.Keys == {"main", "helper"};
    AcceptsIffFunctionsClean(p, Inferred, {}, w);
  }

  lemma HelperIsNotQuiet()
    ensures var p := DenyHelper();
            "helper" in p.fns && !p.fns["helper"].Annotated() && !Quiet(p, {}, p.fns["helper"], p.fns["helper"].body)
  {
    var p := DenyHelper();
    assert FsWrite in BuiltinNeed(p, "file_write");
    assert FsWrite in Demand(p, {}, DeclaredMap(p), p.fns["helper"], true, Call("file_write", [Plain]));
  }

  /** Without those two restrictions it is not: the helper passes Inferred and fails Permissive. */
  lemma DenyBreaksTheHierarchy(hot: set<Position>, w: CapMap)
    requires IsHotSet(DenyHelper(), hot) && IsInferredMap(DenyHelper(), hot, w)
    ensures DenyHelper().WellFormed()
    ensures Accepts(DenyHelper(), Inferred, hot, w)
    ensures !Accepts(DenyHelper(), Permissive, hot, DeclaredMap(DenyHelper()))
  {
    var p := DenyHelper();
    var helper := p.fns["helper"];
    HelperIsFirstOrder();
    FirstOrderHasNoHotParams(p, hot);
    HelperPassesInferred(w);
    HelperIsNotQuiet();
    hide Accepts, IsInferredMap, IsHotSet, Quiet, FirstOrder;
    InferredImpliesPermissiveExactly(p, hot, w);
  }
}
