/** Exactly when a module is accepted, and how the three modes relate. */
module Acceptance {
  import opened Capabilities
  import opened Language
  import opened HotParams
  import opened Inference
  import opened Enforcement

  // ----- what a body asks of the scope it is checked in -----

  /** Naming a function as a value asks for its whole set. */
  function ArgsAuthority(w: CapMap, d: FnDecl, args: seq<Arg>): CapSet {
    set k, c | 0 <= k < |args| && args[k].Ident? && !LocalInEnforcement(d, args[k].name)
      && c in Lookup(w, args[k].name) :: c
  }

  function Demand(p: Program, hot: set<Position>, w: CapMap, d: FnDecl, inDeny: bool, c: Cmd): CapSet
    decreases c
  {
    match c
    case Skip => {}
    case Return => {}
    case PathCall(cap) => {cap}
    case Call(n, args) =>
      BuiltinNeed(p, n) + Lookup(w, n) + HotExtra(p, hot, w, d, n, args, false, inDeny)
      + (if NamedInEnforcement(p, d, n) then {} else Charge(ResolveName(p, hot, w, d, n), inDeny))
      + ArgsNeed(p, args) + ArgsAuthority(w, d, args)
    case MethodCall(n, args) =>
      Lookup(w, n) + HotExtra(p, hot, w, d, n, args, true, inDeny) + ArgsNeed(p, args) + ArgsAuthority(w, d, args)
    case Seq(a, b) => Demand(p, hot, w, d, inDeny, a) + Demand(p, hot, w, d, inDeny, b)
    case If(g, a, b) =>
      Demand(p, hot, w, d, inDeny, g) + Demand(p, hot, w, d, inDeny, a) + Demand(p, hot, w, d, inDeny, b)
    case While(g, b) => Demand(p, hot, w, d, inDeny, g) + Demand(p, hot, w, d, inDeny, b)
    case Deny(_, b) => Demand(p, hot, w, d, true, b)
  }

  lemma SubsetOfUnion(a: CapSet, b: CapSet, caps: CapSet)
    ensures IsSubsetOf(a + b, caps) <==> IsSubsetOf(a, caps) && IsSubsetOf(b, caps)
  {
    if IsSubsetOf(a + b, caps) {
      assert forall c | c in a :: c in a + b;
      assert forall c | c in b :: c in a + b;
    }
  }

  lemma SubsetOfOne(cap: Capability, caps: CapSet)
    ensures IsSubsetOf({cap}, caps) <==> SatisfiesRequired(caps, cap)
  {
    assert cap in {cap};
  }

  lemma NameCleanIff(p: Program, w: CapMap, at: At, n: string, isBuiltinName: bool, extra: CapSet)
    requires at.enforcing
    ensures NoErrors(NameDiags(p, w, at, n, isBuiltinName, extra)) <==>
              IsSubsetOf((if isBuiltinName then BuiltinNeed(p, n) else {}) + Lookup(w, n) + extra, at.caps)
  {
    var callee := Lookup(w, n) + extra;
    var gate := isBuiltinName && !p.Defined(n) && n in p.gated;
    var first := if gate && !SatisfiesRequired(at.caps, p.gated[n]) then [BuiltinDenied(n, p.gated[n])] else [];
    var second := if callee != {} && !IsSubsetOf(callee, at.caps)
                  then [CalleeExceeds(n, ExcessOver(callee, at.caps))] else [];
    assert NameDiags(p, w, at, n, isBuiltinName, extra) == first + second;
    NoErrorsOfBoth(first, second);
    var need := if isBuiltinName then BuiltinNeed(p, n) else {};
    if gate {
      NoErrorsIf(!SatisfiesRequired(at.caps, p.gated[n]), BuiltinDenied(n, p.gated[n]));
      SubsetOfOne(p.gated[n], at.caps);
    }
    NoErrorsIf(callee != {} && !IsSubsetOf(callee, at.caps), CalleeExceeds(n, ExcessOver(callee, at.caps)));
    SubsetOfUnion(need, callee, at.caps);
    assert need + Lookup(w, n) + extra == need + callee;
  }

  lemma DirectCleanIff(p: Program, hot: set<Position>, w: CapMap, d: FnDecl, at: At, n: string)
    requires at.enforcing
    ensures NoErrors(DirectDiags(p, hot, w, d, at, n)) <==>
              IsSubsetOf(if NamedInEnforcement(p, d, n) then {} else Charge(ResolveName(p, hot, w, d, n), at.inDeny),
                         at.caps)
  {
    if !NamedInEnforcement(p, d, n) {
      var required := Charge(ResolveName(p, hot, w, d, n), at.inDeny);
      NoErrorsIf(required != {} && !IsSubsetOf(required, at.caps), DirectCallExceeds(ExcessOver(required, at.caps)));
    }
  }

  lemma SingleAuthority(w: CapMap, d: FnDecl, a: Arg)
    requires a.Ident?
    ensures ArgsAuthority(w, d, [a]) == if LocalInEnforcement(d, a.name) then {} else Lookup(w, a.name)
  {
    var one := [a];
    assert one[0] == a;
    forall c | !LocalInEnforcement(d, a.name) && c in Lookup(w, a.name)
      ensures c in ArgsAuthority(w, d, one)
    {
      assert one[0].Ident? && c in Lookup(w, one[0].name);
    }
  }

  lemma ValueCleanIff(p: Program, w: CapMap, d: FnDecl, at: At, a: Arg)
    requires at.enforcing
    ensures NoErrors(ValueDiags(p, w, d, at, a)) <==>
              IsSubsetOf(ArgsNeed(p, [a]) + ArgsAuthority(w, d, [a]), at.caps)
  {
    if a.Ident? {
      var n := a.name;
      var gate := !p.Defined(n) && n in p.gated;
      var first := if gate && !SatisfiesRequired(at.caps, p.gated[n]) then [ValueBuiltinDenied(n, p.gated[n])] else [];
      var open := !LocalInEnforcement(d, n) && n in w;
      var second := if open && !IsSubsetOf(w[n], at.caps) then [ValueExceeds(n, ExcessOver(w[n], at.caps))] else [];
      assert ValueDiags(p, w, d, at, a) == first + second;
      NoErrorsOfBoth(first, second);
      if gate {
        NoErrorsIf(!SatisfiesRequired(at.caps, p.gated[n]), ValueBuiltinDenied(n, p.gated[n]));
        SubsetOfOne(p.gated[n], at.caps);
      }
      if open {
        NoErrorsIf(!IsSubsetOf(w[n], at.caps), ValueExceeds(n, ExcessOver(w[n], at.caps)));
      }
      assert [a][0] == a;
      assert ArgsNeed(p, [a]) == BuiltinNeed(p, n);
      SingleAuthority(w, d, a);
      SubsetOfUnion(ArgsNeed(p, [a]), ArgsAuthority(w, d, [a]), at.caps);
    } else {
      assert ArgsNeed(p, [a]) == {} && ArgsAuthority(w, d, [a]) == {};
    }
  }

  lemma {:induction false} ArgsCleanIff(p: Program, w: CapMap, d: FnDecl, at: At, args: seq<Arg>)
    requires at.enforcing
    ensures NoErrors(ArgsDiags(p, w, d, at, args))
            <==> IsSubsetOf(ArgsNeed(p, args) + ArgsAuthority(w, d, args), at.caps)
  {
    if args == [] {
      assert ArgsNeed(p, args) + ArgsAuthority(w, d, args) == {};
    } else {
      var init, last := args[..|args| - 1], args[|args| - 1];
      ArgsCleanIff(p, w, d, at, init);
      ValueCleanIff(p, w, d, at, last);
      NoErrorsOfBoth(ArgsDiags(p, w, d, at, init), ValueDiags(p, w, d, at, last));
      SubsetOfUnion(ArgsNeed(p, init) + ArgsAuthority(w, d, init), ArgsNeed(p, [last]) + ArgsAuthority(w, d, [last]),
                    at.caps);
      ArgsSplit(p, w, d, init, last);
      assert args == init + [last];
    }
  }

  lemma ArgsSplit(p: Program, w: CapMap, d: FnDecl, init: seq<Arg>, last: Arg)
    ensures ArgsNeed(p, init + [last]) + ArgsAuthority(w, d, init + [last])
            == (ArgsNeed(p, init) + ArgsAuthority(w, d, init)) + (ArgsNeed(p, [last]) + ArgsAuthority(w, d, [last]))
  {
    var args := init + [last];
    assert args[|init|] == last && [last][0] == last;
    assert forall k | 0 <= k < |init| :: args[k] == init[k];
    forall c
      ensures c in ArgsNeed(p, args) <==> c in ArgsNeed(p, init) || c in ArgsNeed(p, [last])
      ensures c in ArgsAuthority(w, d, args) <==> c in ArgsAuthority(w, d, init) || c in ArgsAuthority(w, d, [last])
    {
      if c in ArgsNeed(p, init) {
        var k :| 0 <= k < |init| && init[k].Ident? && c in BuiltinNeed(p, init[k].name);
        assert args[k] == init[k];
      }
      if c in ArgsAuthority(w, d, init) {
        var k :| 0 <= k < |init| && init[k].Ident? && !LocalInEnforcement(d, init[k].name)
          && c in Lookup(w, init[k].name);
        assert args[k] == init[k];
      }
      if c in ArgsNeed(p, [last]) {
        assert args[|init|] == [last][0];
      }
      if c in ArgsAuthority(w, d, [last]) {
        assert args[|init|] == [last][0];
      }
    }
  }

  lemma MethodCleanIff(p: Program, hot: set<Position>, w: CapMap, d: FnDecl, at: At, n: string, args: seq<Arg>)
    requires at.enforcing
    ensures NoErrors(BodyDiags(p, hot, w, d, at, MethodCall(n, args))) <==>
              IsSubsetOf(Demand(p, hot, w, d, at.inDeny, MethodCall(n, args)), at.caps)
  {
    var extra := HotExtra(p, hot, w, d, n, args, true, at.inDeny);
    NoErrorsOfBoth(NameDiags(p, w, at, n, false, extra), ArgsDiags(p, w, d, at, args));
    NameCleanIff(p, w, at, n, false, extra);
    ArgsCleanIff(p, w, d, at, args);
    var x := {} + Lookup(w, n) + extra;
    var z := ArgsNeed(p, args) + ArgsAuthority(w, d, args);
    SubsetOfUnion(x, z, at.caps);
    assert Demand(p, hot, w, d, at.inDeny, MethodCall(n, args)) == x + z;
  }

  lemma CallCleanIff(p: Program, hot: set<Position>, w: CapMap, d: FnDecl, at: At, n: string, args: seq<Arg>)
    requires at.enforcing
    ensures NoErrors(BodyDiags(p, hot, w, d, at, Call(n, args))) <==>
              IsSubsetOf(Demand(p, hot, w, d, at.inDeny, Call(n, args)), at.caps)
  {
    hide NoErrors, IsSubsetOf, HotExtra, ArgsDiags, NameDiags, DirectDiags, ArgsNeed, ArgsAuthority, BuiltinNeed,
         Charge, ResolveName, NamedInEnforcement;
    var extra := HotExtra(p, hot, w, d, n, args, false, at.inDeny);
    var names, direct := NameDiags(p, w, at, n, true, extra), DirectDiags(p, hot, w, d, at, n);
    var values := ArgsDiags(p, w, d, at, args);
    NoErrorsOfBoth(names + direct, values);
    NoErrorsOfBoth(names, direct);
    NameCleanIff(p, w, at, n, true, extra);
    DirectCleanIff(p, hot, w, d, at, n);
    ArgsCleanIff(p, w, d, at, args);
    var x := BuiltinNeed(p, n) + Lookup(w, n) + extra;
    var y := if NamedInEnforcement(p, d, n) then {} else Charge(ResolveName(p, hot, w, d, n), at.inDeny);
    var z := ArgsNeed(p, args) + ArgsAuthority(w, d, args);
    SubsetOfUnion(x + y, z, at.caps);
    SubsetOfUnion(x, y, at.caps);
    assert Demand(p, hot, w, d, at.inDeny, Call(n, args)) == x + y + z;
  }

  /** A body is clean at a scope exactly when its demand lies within the grant: without
      `deny!` at every grant, with `deny!` at the empty one. */
  lemma {:induction false} BodyCleanIff(p: Program, hot: set<Position>, w: CapMap, d: FnDecl, at: At, c: Cmd)
    requires at.enforcing && (DenyFree(c) || at.caps == {})
    ensures NoErrors(BodyDiags(p, hot, w, d, at, c)) <==> IsSubsetOf(Demand(p, hot, w, d, at.inDeny, c), at.caps)
    decreases c
  {
    match c
    case Skip =>
    case Return =>
    case PathCall(cap) =>
      SubsetOfOne(cap, at.caps);
      NoErrorsIf(!SatisfiesRequired(at.caps, cap), PathDenied(cap));
    case Call(n, args) => CallCleanIff(p, hot, w, d, at, n, args);
    case MethodCall(n, args) => MethodCleanIff(p, hot, w, d, at, n, args);
    case Seq(a, b) =>
      BodyCleanIff(p, hot, w, d, at, a);
      BodyCleanIff(p, hot, w, d, at, b);
      PairCleanIff(p, hot, w, d, at, a, b);
    case While(g, b) =>
      BodyCleanIff(p, hot, w, d, at, g);
      BodyCleanIff(p, hot, w, d, at, b);
      PairCleanIff(p, hot, w, d, at, g, b);
    case If(g, a, b) =>
      BodyCleanIff(p, hot, w, d, at, g);
      BodyCleanIff(p, hot, w, d, at, a);
      BodyCleanIff(p, hot, w, d, at, b);
      PairCleanIff(p, hot, w, d, at, g, a);
      NoErrorsOfBoth(BodyDiags(p, hot, w, d, at, g) + BodyDiags(p, hot, w, d, at, a), BodyDiags(p, hot, w, d, at, b));
      SubsetOfUnion(Demand(p, hot, w, d, at.inDeny, g) + Demand(p, hot, w, d, at.inDeny, a),
                    Demand(p, hot, w, d, at.inDeny, b), at.caps);
    case Deny(denied, b) =>
      var inner := At(Without(at.caps, denied), true, true);
      BodyCleanIff(p, hot, w, d, inner, b);
      NoErrorsOfBoth(if denied == {} then [EmptyDeny] else [], BodyDiags(p, hot, w, d, inner, b));
  }

  lemma PairCleanIff(p: Program, hot: set<Position>, w: CapMap, d: FnDecl, at: At, a: Cmd, b: Cmd)
    requires NoErrors(BodyDiags(p, hot, w, d, at, a)) <==> IsSubsetOf(Demand(p, hot, w, d, at.inDeny, a), at.caps)
    requires NoErrors(BodyDiags(p, hot, w, d, at, b)) <==> IsSubsetOf(Demand(p, hot, w, d, at.inDeny, b), at.caps)
    ensures NoErrors(BodyDiags(p, hot, w, d, at, a) + BodyDiags(p, hot, w, d, at, b)) <==>
              IsSubsetOf(Demand(p, hot, w, d, at.inDeny, a) + Demand(p, hot, w, d, at.inDeny, b), at.caps)
  {
    NoErrorsOfBoth(BodyDiags(p, hot, w, d, at, a), BodyDiags(p, hot, w, d, at, b));
    SubsetOfUnion(Demand(p, hot, w, d, at.inDeny, a), Demand(p, hot, w, d, at.inDeny, b), at.caps);
  }

  // ----- inference and enforcement agree -----

  /** No call names a parameter that is not fn-typed (the type checker's business). */
  predicate CallsNoData(d: FnDecl, c: Cmd) {
    forall k | 0 <= k < |Calls(c)| ::
      !Calls(c)[k].isMethod && IsLocal(d, Calls(c)[k].callee) ==> OwnFnParam(d, Calls(c)[k].callee)
  }

  /** The functions referred to as values, in any position. */
  function NamedAuthority(w: CapMap, d: FnDecl, c: Cmd): CapSet {
    set k, x | 0 <= k < |Calls(c)| && x in ArgsAuthority(w, d, Calls(c)[k].args) :: x
  }

  lemma AuthoritySplit(w: CapMap, d: FnDecl, a: Cmd, b: Cmd)
    ensures NamedAuthority(w, d, Seq(a, b)) == NamedAuthority(w, d, a) + NamedAuthority(w, d, b)
  {
    var s := Calls(Seq(a, b));
    forall x | x in NamedAuthority(w, d, a)
      ensures x in NamedAuthority(w, d, Seq(a, b))
    {
      var k :| 0 <= k < |Calls(a)| && x in ArgsAuthority(w, d, Calls(a)[k].args);
      assert s[k] == Calls(a)[k];
    }
    forall x | x in NamedAuthority(w, d, b)
      ensures x in NamedAuthority(w, d, Seq(a, b))
    {
      var k :| 0 <= k < |Calls(b)| && x in ArgsAuthority(w, d, Calls(b)[k].args);
      assert s[k + |Calls(a)|] == Calls(b)[k];
    }
    forall x | x in NamedAuthority(w, d, Seq(a, b))
      ensures x in NamedAuthority(w, d, a) + NamedAuthority(w, d, b)
    {
      var k :| 0 <= k < |s| && x in ArgsAuthority(w, d, s[k].args);
      if k >= |Calls(a)| {
        assert s[k] == Calls(b)[k - |Calls(a)|];
      }
    }
  }

  lemma NoDataSplit(d: FnDecl, a: Cmd, b: Cmd)
    requires CallsNoData(d, Seq(a, b))
    ensures CallsNoData(d, a) && CallsNoData(d, b)
  {
    var s := Calls(Seq(a, b));
    forall k | 0 <= k < |Calls(a)|
      ensures !Calls(a)[k].isMethod && IsLocal(d, Calls(a)[k].callee) ==> OwnFnParam(d, Calls(a)[k].callee)
    {
      assert s[k] == Calls(a)[k];
    }
    forall k | 0 <= k < |Calls(b)|
      ensures !Calls(b)[k].isMethod && IsLocal(d, Calls(b)[k].callee) ==> OwnFnParam(d, Calls(b)[k].callee)
    {
      assert s[k + |Calls(a)|] == Calls(b)[k];
    }
  }

  lemma SiteAuthority(w: CapMap, d: FnDecl, c: Cmd)
    requires c.Call? || c.MethodCall?
    ensures NamedAuthority(w, d, c) == ArgsAuthority(w, d, c.args)
  {
    var s := CallSite(c.callee, c.args, c.MethodCall?);
    assert Calls(c) == [s];
    forall x | x in ArgsAuthority(w, d, c.args)
      ensures x in NamedAuthority(w, d, c)
    {
      assert x in ArgsAuthority(w, d, Calls(c)[0].args);
    }
  }

  lemma CallDemand(p: Program, hot: set<Position>, w: CapMap, d: FnDecl, n: string, args: seq<Arg>)
    requires CallsNoData(d, Call(n, args))
    ensures Demand(p, hot, w, d, false, Call(n, args)) == Collect(p, hot, w, d, Call(n, args))
            + NamedAuthority(w, d, Call(n, args))
  {
    assert Calls(Call(n, args))[0].callee == n;
    SiteAuthority(w, d, Call(n, args));
    if NamedInEnforcement(p, d, n) != NamedInInference(p, d, n) {
      assert OwnFnParam(d, n);
    }
  }

  lemma NothingNamed(w: CapMap, d: FnDecl, c: Cmd)
    requires Calls(c) == []
    ensures NamedAuthority(w, d, c) == {}
  {
  }

  lemma SameCalls(w: CapMap, d: FnDecl, a: Cmd, b: Cmd)
    requires Calls(a) == Calls(b)
    ensures NamedAuthority(w, d, a) == NamedAuthority(w, d, b) && (CallsNoData(d, a) <==> CallsNoData(d, b))
  {
    hide ArgsAuthority;
  }

  /** Outside `deny!`, enforcement demands what inference collects, and the full set of every
      function named as a value. */
  lemma {:induction false} DemandIsCollected(p: Program, hot: set<Position>, w: CapMap, d: FnDecl, c: Cmd)
    requires DenyFree(c) && CallsNoData(d, c)
    ensures Demand(p, hot, w, d, false, c) == Collect(p, hot, w, d, c) + NamedAuthority(w, d, c)
  {
    hide HotExtra, Charge, ResolveName, BuiltinNeed, ArgsNeed, ArgsAuthority, NamedInEnforcement, NamedInInference,
         NamedAuthority, CallsNoData;
    match c
    case Skip => NothingNamed(w, d, c);
    case Return => NothingNamed(w, d, c);
    case PathCall(_) => NothingNamed(w, d, c);
    case Call(n, args) => CallDemand(p, hot, w, d, n, args);
    case MethodCall(n, args) => SiteAuthority(w, d, c);
    case Seq(a, b) =>
      NoDataSplit(d, a, b);
      DemandIsCollected(p, hot, w, d, a);
      DemandIsCollected(p, hot, w, d, b);
      PairIsCollected(p, hot, w, d, a, b);
    case While(a, b) =>
      SameCalls(w, d, c, Seq(a, b));
      NoDataSplit(d, a, b);
      DemandIsCollected(p, hot, w, d, a);
      DemandIsCollected(p, hot, w, d, b);
      PairIsCollected(p, hot, w, d, a, b);
    case If(g, a, b) =>
      SameCalls(w, d, c, Seq(Seq(g, a), b));
      NoDataSplit(d, Seq(g, a), b);
      NoDataSplit(d, g, a);
      DemandIsCollected(p, hot, w, d, g);
      DemandIsCollected(p, hot, w, d, a);
      DemandIsCollected(p, hot, w, d, b);
      PairIsCollected(p, hot, w, d, g, a);
      PairIsCollected(p, hot, w, d, Seq(g, a), b);
  }

  lemma PairIsCollected(p: Program, hot: set<Position>, w: CapMap, d: FnDecl, a: Cmd, b: Cmd)
    requires Demand(p, hot, w, d, false, a) == Collect(p, hot, w, d, a) + NamedAuthority(w, d, a)
    requires Demand(p, hot, w, d, false, b) == Collect(p, hot, w, d, b) + NamedAuthority(w, d, b)
    ensures Demand(p, hot, w, d, false, Seq(a, b)) == Demand(p, hot, w, d, false, a) + Demand(p, hot, w, d, false, b)
    ensures Collect(p, hot, w, d, Seq(a, b)) == Collect(p, hot, w, d, a) + Collect(p, hot, w, d, b)
    ensures Demand(p, hot, w, d, false, Seq(a, b)) == Collect(p, hot, w, d, Seq(a, b)) + NamedAuthority(w, d, Seq(a, b))
  {
    hide HotExtra, Charge, ResolveName, BuiltinNeed, ArgsNeed, ArgsAuthority, NamedAuthority;
    AuthoritySplit(w, d, a, b);
  }

  /** `main`, annotated functions and handlers answer for a declared set. */
  predicate Boundary(p: Program, n: string) {
    n in p.fns && (HasCeiling(p, n) || n == "main")
  }

  predicate Plainly(p: Program, n: string)
    requires n in p.fns
  {
    DenyFree(p.fns[n].body) && CallsNoData(p.fns[n], p.fns[n].body)
  }

  /** One function without `deny!`: it is clean iff its grant covers what its body collects and
      what it names as values; an interior function's grant always covers the former. */
  lemma PlainFunctionIsClean(p: Program, hot: set<Position>, w: CapMap, n: string)
    requires p.WellFormed() && IsInferredMap(p, hot, w) && n in p.fns && Plainly(p, n)
    ensures var d, caps := p.fns[n], Entry(p, Inferred, w, n).caps;
            && (NoErrors(FunctionDiags(p, Inferred, hot, w, n)) <==>
                  IsSubsetOf(Collect(p, hot, w, d, d.body), caps) && IsSubsetOf(NamedAuthority(w, d, d.body), caps))
            && (Boundary(p, n) ==> caps == d.Declared())
            && (!Boundary(p, n) ==> IsSubsetOf(Collect(p, hot, w, d, d.body), caps))
  {
    var d, at := p.fns[n], Entry(p, Inferred, w, n);
    InferredMapIsClosed(p, hot, w);
    assert !Boundary(p, n) ==> Collect(p, hot, w, d, d.body) <= at.caps;
    hide NoErrors, BodyDiags, Collect, NamedAuthority, IsInferredMap, Demand, IsSubsetOf;
    BodyCleanIff(p, hot, w, d, at, d.body);
    DemandIsCollected(p, hot, w, d, d.body);
    SubsetOfUnion(Collect(p, hot, w, d, d.body), NamedAuthority(w, d, d.body), at.caps);
    if !Boundary(p, n) {
      InclusionIsSubset(Collect(p, hot, w, d, d.body), at.caps);
    }
  }

  /** Exact acceptance without `deny!`: every boundary declares what its body collects, and
      every function may name as a value only what its own grant covers. */
  lemma AcceptsExactly(p: Program, hot: set<Position>, w: CapMap)
    requires p.WellFormed() && IsHotSet(p, hot) && IsInferredMap(p, hot, w)
    requires forall n | n in p.fns :: Plainly(p, n)
    ensures Accepts(p, Inferred, hot, w) <==>
              && (forall n | Boundary(p, n) ::
                  IsSubsetOf(Collect(p, hot, w, p.fns[n], p.fns[n].body), p.fns[n].Declared()))
              && (forall n | n in p.fns :: IsSubsetOf(NamedAuthority(w, p.fns[n], p.fns[n].body),
                                                      Entry(p, Inferred, w, n).caps))
  {
    AcceptsIffFunctionsClean(p, Inferred, hot, w);
    hide NoErrors, FunctionDiags, Collect, NamedAuthority, IsInferredMap, IsHotSet, IsSubsetOf, Accepts, Entry;
    forall n | n in p.fns
      ensures var d, caps := p.fns[n], Entry(p, Inferred, w, n).caps;
              && (NoErrors(FunctionDiags(p, Inferred, hot, w, n)) <==>
                    IsSubsetOf(Collect(p, hot, w, d, d.body), caps) && IsSubsetOf(NamedAuthority(w, d, d.body), caps))
              && (Boundary(p, n) ==> caps == d.Declared())
              && (!Boundary(p, n) ==> IsSubsetOf(Collect(p, hot, w, d, d.body), caps))
    {
      PlainFunctionIsClean(p, hot, w, n);
    }
  }

  lemma InclusionIsSubset(a: CapSet, b: CapSet)
    requires a <= b
    ensures IsSubsetOf(a, b)
  {
    forall c | c in a
      ensures SatisfiesRequired(b, c)
    {
      TreeOrder(c, c, c);
    }
  }

  /** What a body's own statements, or call paths leaving it, reach. */
  ghost predicate ReachableNeed(p: Program, c: Cmd, x: Capability) {
    || NeedsDirectly(p, c, x)
    || exists path :: IsCallPath(p, path, x) && CallsByName(c, path[0])
  }

  lemma FirstOrderIsPlain(p: Program, n: string)
    requires FirstOrder(p) && n in p.fns && DenyFree(p.fns[n].body)
    ensures Plainly(p, n)
  {
    var d := p.fns[n];
    forall k | 0 <= k < |Calls(d.body)|
      ensures !Calls(d.body)[k].isMethod && IsLocal(d, Calls(d.body)[k].callee)
              ==> OwnFnParam(d, Calls(d.body)[k].callee)
    {
      assert SiteIsFirstOrder(d, Calls(d.body)[k]);
    }
  }

  lemma FirstOrderCollectIsReachability(p: Program, hot: set<Position>, w: CapMap, n: string, x: Capability)
    requires FirstOrder(p) && IsHotSet(p, hot) && IsInferredMap(p, hot, w) && n in p.fns
    ensures x in Collect(p, hot, w, p.fns[n], p.fns[n].body) <==> ReachableNeed(p, p.fns[n].body, x)
  {
    var d := p.fns[n];
    FirstOrderHasNoHotParams(p, hot);
    assert FirstOrderBody(d, d.body);
    CollectIsLinear(p, hot, w, d, d.body, x);
    FirstOrderCollect(p, d, d.body, x);
    forall g
      ensures RefersTo(p, {}, d, d.body, g) <==> CallsByName(d.body, g)
    {
      RefersByName(p, d, d.body, g);
    }
    forall g
      ensures x in Lookup(w, g) <==> exists path :: IsCallPath(p, path, x) && path[0] == g
    {
      FirstOrderInferenceIsReachability(p, hot, w, g, x);
    }
  }

  lemma FirstOrderNamesNoFunction(p: Program, w: CapMap, n: string)
    requires FirstOrder(p) && n in p.fns
    ensures NamedAuthority(w, p.fns[n], p.fns[n].body) == {}
  {
    var d := p.fns[n];
    forall k | 0 <= k < |Calls(d.body)|
      ensures ArgsAuthority(w, d, Calls(d.body)[k].args) == {}
    {
      assert SiteIsFirstOrder(d, Calls(d.body)[k]);
    }
  }

  /** Exact acceptance for first-order programs without `deny!`: accepted iff every boundary
      declares a set covering its reachable needs. */
  lemma FirstOrderAcceptance(p: Program, hot: set<Position>, w: CapMap)
    requires p.WellFormed() && FirstOrder(p) && IsHotSet(p, hot) && IsInferredMap(p, hot, w)
    requires forall n | n in p.fns :: DenyFree(p.fns[n].body)
    ensures Accepts(p, Inferred, hot, w) <==>
              forall n, x: Capability | Boundary(p, n) && ReachableNeed(p, p.fns[n].body, x) ::
                SatisfiesRequired(p.fns[n].Declared(), x)
  {
    forall n | n in p.fns
      ensures Plainly(p, n) && NamedAuthority(w, p.fns[n], p.fns[n].body) == {}
    {
      FirstOrderIsPlain(p, n);
      FirstOrderNamesNoFunction(p, w, n);
    }
    AcceptsExactly(p, hot, w);
    forall n, x: Capability | n in p.fns
      ensures x in Collect(p, hot, w, p.fns[n], p.fns[n].body) <==> ReachableNeed(p, p.fns[n].body, x)
    {
      FirstOrderCollectIsReachability(p, hot, w, n, x);
    }
  }

  /** In particular no unannotated interior function of such a program reports anything. */
  lemma InteriorFunctionsAreSilent(p: Program, hot: set<Position>, w: CapMap, n: string)
    requires FirstOrder(p) && IsHotSet(p, hot) && IsInferredMap(p, hot, w)
    requires n in p.fns && !Boundary(p, n) && DenyFree(p.fns[n].body)
    ensures NoErrors(FunctionDiags(p, Inferred, hot, w, n))
  {
    var d, at := p.fns[n], Entry(p, Inferred, w, n);
    FirstOrderIsPlain(p, n);
    FirstOrderNamesNoFunction(p, w, n);
    InferredMapIsClosed(p, hot, w);
    BodyCleanIff(p, hot, w, d, at, d.body);
    DemandIsCollected(p, hot, w, d, d.body);
    InclusionIsSubset(Collect(p, hot, w, d, d.body), at.caps);
  }

  // ----- with `deny!` -----

  /** A demand, and everything denied by the blocks around it. */
  datatype Guarded = Guarded(cap: Capability, denied: CapSet)

  /** What one call or path call asks for; without the guards only a path call is checked. */
  function SiteDemand(p: Program, hot: set<Position>, w: CapMap, d: FnDecl, enforcing: bool, inDeny: bool,
                      c: Cmd): CapSet {
    if enforcing || c.PathCall? then Demand(p, hot, w, d, inDeny, c) else {}
  }

  function GuardedDemands(p: Program, hot: set<Position>, w: CapMap, d: FnDecl, enforcing: bool, inDeny: bool,
                          denied: CapSet, c: Cmd): set<Guarded>
    decreases c
  {
    match c
    case Seq(a, b) =>
      GuardedDemands(p, hot, w, d, enforcing, inDeny, denied, a)
      + GuardedDemands(p, hot, w, d, enforcing, inDeny, denied, b)
    case If(g, a, b) =>
      GuardedDemands(p, hot, w, d, enforcing, inDeny, denied, g)
      + GuardedDemands(p, hot, w, d, enforcing, inDeny, denied, a)
      + GuardedDemands(p, hot, w, d, enforcing, inDeny, denied, b)
    case While(g, b) =>
      GuardedDemands(p, hot, w, d, enforcing, inDeny, denied, g)
      + GuardedDemands(p, hot, w, d, enforcing, inDeny, denied, b)
    case Deny(more, b) => GuardedDemands(p, hot, w, d, true, true, denied + more, b)
    case _ => set x | x in SiteDemand(p, hot, w, d, enforcing, inDeny, c) :: Guarded(x, denied)
  }

  /** Every demand is met by what its denials leave of the grant. */
  predicate Meets(caps: CapSet, gs: set<Guarded>) {
    forall g | g in gs :: SatisfiesRequired(Without(caps, g.denied), g.cap)
  }

  lemma WithoutBoth(caps: CapSet, a: CapSet, b: CapSet)
    ensures Without(Without(caps, a), b) == Without(caps, a + b)
  {
  }

  lemma MeetsBoth(caps: CapSet, a: set<Guarded>, b: set<Guarded>)
    ensures Meets(caps, a + b) <==> Meets(caps, a) && Meets(caps, b)
  {
    if Meets(caps, a + b) {
      assert forall g | g in a :: g in a + b;
      assert forall g | g in b :: g in a + b;
    }
  }

  lemma SiteIsMet(caps: CapSet, denied: CapSet, needs: CapSet)
    ensures Meets(caps, set x | x in needs :: Guarded(x, denied)) <==> IsSubsetOf(needs, Without(caps, denied))
  {
    var gs := set x | x in needs :: Guarded(x, denied);
    if Meets(caps, gs) {
      forall x | x in needs
        ensures SatisfiesRequired(Without(caps, denied), x)
      {
        assert Guarded(x, denied) in gs;
      }
    }
  }

  lemma {:induction false} UnenforcedArgs(p: Program, w: CapMap, d: FnDecl, at: At, args: seq<Arg>)
    requires !at.enforcing
    ensures ArgsDiags(p, w, d, at, args) == []
  {
    if args != [] {
      UnenforcedArgs(p, w, d, at, args[..|args| - 1]);
    }
  }

  lemma SiteCleanIff(p: Program, hot: set<Position>, w: CapMap, d: FnDecl, at: At, c: Cmd)
    requires c.Skip? || c.Return? || c.PathCall? || c.Call? || c.MethodCall?
    ensures NoErrors(BodyDiags(p, hot, w, d, at, c))
            <==> IsSubsetOf(SiteDemand(p, hot, w, d, at.enforcing, at.inDeny, c), at.caps)
  {
    if at.enforcing {
      BodyCleanIff(p, hot, w, d, at, c);
    } else if c.PathCall? {
      SubsetOfOne(c.cap, at.caps);
      NoErrorsIf(!SatisfiesRequired(at.caps, c.cap), PathDenied(c.cap));
    } else if c.Call? || c.MethodCall? {
      UnenforcedArgs(p, w, d, at, c.args);
    }
  }

  /** The walk narrows its grant block by block; what it accepts is decided demand by demand,
      each against the original grant less everything denied around it. */
  lemma {:induction false} BodyCleanExactly(p: Program, hot: set<Position>, w: CapMap, d: FnDecl, caps: CapSet,
                                            enforcing: bool, inDeny: bool, denied: CapSet, c: Cmd)
    ensures NoErrors(BodyDiags(p, hot, w, d, At(Without(caps, denied), enforcing, inDeny), c))
       <==> Meets(caps, GuardedDemands(p, hot, w, d, enforcing, inDeny, denied, c))
    decreases c
  {
    var at := At(Without(caps, denied), enforcing, inDeny);
    hide NoErrors, Meets, SiteDemand, IsSubsetOf, Without;
    match c
    case Seq(a, b) =>
      BodyCleanExactly(p, hot, w, d, caps, enforcing, inDeny, denied, a);
      BodyCleanExactly(p, hot, w, d, caps, enforcing, inDeny, denied, b);
      PairCleanExactly(p, hot, w, d, caps, enforcing, inDeny, denied, a, b);
    case While(g, b) =>
      BodyCleanExactly(p, hot, w, d, caps, enforcing, inDeny, denied, g);
      BodyCleanExactly(p, hot, w, d, caps, enforcing, inDeny, denied, b);
      PairCleanExactly(p, hot, w, d, caps, enforcing, inDeny, denied, g, b);
    case If(g, a, b) =>
      BodyCleanExactly(p, hot, w, d, caps, enforcing, inDeny, denied, g);
      BodyCleanExactly(p, hot, w, d, caps, enforcing, inDeny, denied, a);
      PairCleanExactly(p, hot, w, d, caps, enforcing, inDeny, denied, g, a);
      BodyCleanExactly(p, hot, w, d, caps, enforcing, inDeny, denied, b);
      NoErrorsOfBoth(BodyDiags(p, hot, w, d, at, g) + BodyDiags(p, hot, w, d, at, a), BodyDiags(p, hot, w, d, at, b));
      MeetsBoth(caps, GuardedDemands(p, hot, w, d, enforcing, inDeny, denied, g)
                + GuardedDemands(p, hot, w, d, enforcing, inDeny, denied, a),
                GuardedDemands(p, hot, w, d, enforcing, inDeny, denied, b));
    case Deny(more, b) =>
      WithoutBoth(caps, denied, more);
      BodyCleanExactly(p, hot, w, d, caps, true, true, denied + more, b);
      EmptyDenyIsNoError(more);
      NoErrorsOfBoth(if more == {} then [EmptyDeny] else [],
                     BodyDiags(p, hot, w, d, At(Without(at.caps, more), true, true), b));
    case _ =>
      SiteCleanIff(p, hot, w, d, at, c);
      SiteIsMet(caps, denied, SiteDemand(p, hot, w, d, enforcing, inDeny, c));
  }

  lemma EmptyDenyIsNoError(denied: CapSet)
    ensures NoErrors(if denied == {} then [EmptyDeny] else [])
  {
  }

  lemma PairCleanExactly(p: Program, hot: set<Position>, w: CapMap, d: FnDecl, caps: CapSet,
                         enforcing: bool, inDeny: bool, denied: CapSet, a: Cmd, b: Cmd)
    requires var at := At(Without(caps, denied), enforcing, inDeny);
             && (NoErrors(BodyDiags(p, hot, w, d, at, a))
                 <==> Meets(caps, GuardedDemands(p, hot, w, d, enforcing, inDeny, denied, a)))
             && (NoErrors(BodyDiags(p, hot, w, d, at, b))
                 <==> Meets(caps, GuardedDemands(p, hot, w, d, enforcing, inDeny, denied, b)))
    ensures NoErrors(BodyDiags(p, hot, w, d, At(Without(caps, denied), enforcing, inDeny), a)
                     + BodyDiags(p, hot, w, d, At(Without(caps, denied), enforcing, inDeny), b))
       <==> Meets(caps, GuardedDemands(p, hot, w, d, enforcing, inDeny, denied, a)
                  + GuardedDemands(p, hot, w, d, enforcing, inDeny, denied, b))
  {
    var at := At(Without(caps, denied), enforcing, inDeny);
    hide NoErrors, Meets, SiteDemand, Without, BodyDiags, GuardedDemands;
    NoErrorsOfBoth(BodyDiags(p, hot, w, d, at, a), BodyDiags(p, hot, w, d, at, b));
    MeetsBoth(caps, GuardedDemands(p, hot, w, d, enforcing, inDeny, denied, a),
              GuardedDemands(p, hot, w, d, enforcing, inDeny, denied, b));
  }

  /** The demands of a whole function. */
  function FunctionDemands(p: Program, mode: Mode, hot: set<Position>, w: CapMap, n: string): set<Guarded>
    requires n in p.fns
  {
    GuardedDemands(p, hot, w, p.fns[n], Entry(p, mode, w, n).enforcing, false, {}, p.fns[n].body)
  }

  /** Exact acceptance of every program of the language in every mode. */
  lemma AcceptsExactlyWithDeny(p: Program, mode: Mode, hot: set<Position>, w: CapMap)
    requires p.WellFormed() && IsHotSet(p, hot) && IsEnforcementMap(p, mode, hot, w)
    ensures Accepts(p, mode, hot, w)
       <==> forall n | n in p.fns :: Meets(Entry(p, mode, w, n).caps, FunctionDemands(p, mode, hot, w, n))
  {
    AcceptsIffFunctionsClean(p, mode, hot, w);
    hide NoErrors, Meets, GuardedDemands, BodyDiags, Accepts, IsHotSet, IsEnforcementMap;
    forall n | n in p.fns
      ensures NoErrors(FunctionDiags(p, mode, hot, w, n))
         <==> Meets(Entry(p, mode, w, n).caps, FunctionDemands(p, mode, hot, w, n))
    {
      var at := Entry(p, mode, w, n);
      assert Without(at.caps, {}) == at.caps && !at.inDeny;
      BodyCleanExactly(p, hot, w, p.fns[n], at.caps, at.enforcing, false, {}, p.fns[n].body);
    }
  }
}
