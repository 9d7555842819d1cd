/** Inference and acceptance of programs that hand functions over (checker.rs
    `compute_inferred_capabilities`, `check_module`), stated over the program alone: its calls, the
    parameters that are called somewhere, its gated builtins and its declared sets. */
module SecondOrder {
  import opened Wrappers
  import opened Capabilities
  import opened Language
  import opened HotParams
  import opened Inference
  import opened Enforcement
  import opened Acceptance

  // ----- call sites -----

  predicate IsFree(p: Program, n: string) {
    n in p.fns && p.fns[n].kind == Free
  }

  /** `n` calls one of its parameters, itself or by handing it over. */
  ghost predicate CallsItsParams(p: Program, n: string) {
    exists i: nat :: Hot(p, (n, i))
  }

  /** Argument `j` lands in a parameter that the callee calls. A method has its receiver in front;
      a handler has none. */
  ghost predicate IsInvoked(p: Program, s: CallSite, j: nat) {
    Hot(p, (s.callee, if s.isMethod && !(s.callee in p.fns && p.fns[s.callee].kind == Handler) then j + 1 else j))
  }

  /** The builtin `n` needs `x`. */
  predicate Gates(p: Program, n: string, x: Capability) {
    !IsFree(p, n) && n in p.gated && p.gated[n] == x
  }

  /** A value nothing is known of: data, a function that calls what it is given in its turn, or a
      name that is neither a function nor a gated builtin. */
  ghost predicate Untraceable(p: Program, d: FnDecl, a: Arg) {
    match a
    case Plain => true
    case Ident(n) => !OwnFnParam(d, n) && if IsFree(p, n) then CallsItsParams(p, n) else n !in p.gated
  }

  /** A function whose whole set is known. */
  ghost predicate Traceable(p: Program, d: FnDecl, a: Arg, g: string) {
    a == Ident(g) && !OwnFnParam(d, g) && IsFree(p, g) && !CallsItsParams(p, g)
  }

  // ----- inference -----

  predicate TakesPath(c: Cmd, x: Capability) {
    match c
    case PathCall(cap) => x == cap
    case Seq(a, b) => TakesPath(a, x) || TakesPath(b, x)
    case If(g, a, b) => TakesPath(g, x) || TakesPath(a, x) || TakesPath(b, x)
    case While(g, b) => TakesPath(g, x) || TakesPath(b, x)
    case Deny(_, b) => TakesPath(b, x)
    case _ => false
  }

  /** A gated builtin is handed over by name. */
  predicate HandsBuiltin(p: Program, s: CallSite, x: Capability) {
    exists j | 0 <= j < |s.args| :: s.args[j].Ident? && Gates(p, s.args[j].name, x)
  }

  /** Something untraceable is handed over to be called. */
  ghost predicate HandsUntraceable(p: Program, d: FnDecl, s: CallSite) {
    exists j | 0 <= j < |s.args| :: IsInvoked(p, s, j) && Untraceable(p, d, s.args[j])
  }

  /** What a call site needs by itself: a gated builtin called or handed over, or everything, when
      it calls a name that stands for nothing or has something untraceable called. */
  ghost predicate SiteNeeds(p: Program, d: FnDecl, s: CallSite, x: Capability) {
    || (!s.isMethod && Gates(p, s.callee, x))
    || HandsBuiltin(p, s, x)
    || (x == All && !s.isMethod && !OwnFnParam(d, s.callee) && !IsFree(p, s.callee)
        && s.callee !in p.known && s.callee !in p.gated)
    || (x == All && HandsUntraceable(p, d, s))
  }

  /** A call site uses `g`: it calls `g`, or has `g` called. */
  ghost predicate SiteUses(p: Program, d: FnDecl, s: CallSite, g: string) {
    || s.callee == g
    || exists j | 0 <= j < |s.args| :: IsInvoked(p, s, j) && Traceable(p, d, s.args[j], g)
  }

  ghost predicate AnySiteNeeds(p: Program, d: FnDecl, sites: seq<CallSite>, x: Capability) {
    exists k | 0 <= k < |sites| :: SiteNeeds(p, d, sites[k], x)
  }

  ghost predicate Needs(p: Program, d: FnDecl, c: Cmd, x: Capability) {
    TakesPath(c, x) || AnySiteNeeds(p, d, Calls(c), x)
  }

  ghost predicate Uses(p: Program, d: FnDecl, c: Cmd, g: string) {
    exists k | 0 <= k < |Calls(c)| :: SiteUses(p, d, Calls(c)[k], g)
  }

  predicate Unannotated(p: Program, n: string) {
    n in p.fns && p.fns[n].kind != Handler && p.fns[n].annotation == None
  }

  /** A path of uses through unannotated functions, to one whose body needs `x` or to an annotated
      function or a handler that declares it. */
  ghost predicate IsUsePath(p: Program, path: seq<string>, x: Capability) {
    && path != []
    && (forall k | 0 <= k < |path| - 1 ::
          Unannotated(p, path[k]) && Uses(p, p.fns[path[k]], p.fns[path[k]].body, path[k + 1]))
    && var last := path[|path| - 1];
       && last in p.fns
       && if Unannotated(p, last) then Needs(p, p.fns[last], p.fns[last].body, x) else x in p.fns[last].Declared()
  }

  ghost predicate Reaches(p: Program, n: string, x: Capability) {
    exists path :: IsUsePath(p, path, x) && path[0] == n
  }

  // ----- the inference walk says the same -----

  lemma HotMeans(p: Program, hot: set<Position>)
    requires IsHotSet(p, hot)
    ensures forall n :: HasHotParam(hot, n) <==> CallsItsParams(p, n)
    ensures forall s: CallSite, j: nat :: (s.callee, j + Offset(p, s.callee, s.isMethod)) in hot <==> IsInvoked(p, s, j)
  {
    forall n
      ensures HasHotParam(hot, n) <==> CallsItsParams(p, n)
    {
      if HasHotParam(hot, n) {
        var pos :| pos in hot && pos.0 == n;
        assert Hot(p, (n, pos.1));
      }
      if i: nat :| Hot(p, (n, i)) {
        assert (n, i) in hot;
      }
    }
  }

  /** What one argument in a called position adds. */
  ghost predicate ArgAdds(p: Program, w: CapMap, d: FnDecl, a: Arg, inDeny: bool, x: Capability) {
    || (x == All && (Untraceable(p, d, a) || (inDeny && a.Ident? && OwnFnParam(d, a.name))))
    || (a.Ident? && Traceable(p, d, a, a.name) && x in Lookup(w, a.name))
    || (a.Ident? && !OwnFnParam(d, a.name) && Gates(p, a.name, x))
  }

  lemma ArgCharge(p: Program, hot: set<Position>, w: CapMap, d: FnDecl, a: Arg, inDeny: bool, x: Capability)
    requires IsHotSet(p, hot)
    ensures x in Charge(ResolveArg(p, hot, w, d, a), inDeny) <==> ArgAdds(p, w, d, a, inDeny, x)
  {
    HotMeans(p, hot);
    hide Hot, CallsItsParams, HasHotParam;
  }

  /** What the arguments of a site in called positions add. */
  ghost predicate HandsOver(p: Program, w: CapMap, d: FnDecl, s: CallSite, inDeny: bool, x: Capability) {
    exists j | 0 <= j < |s.args| :: IsInvoked(p, s, j) && ArgAdds(p, w, d, s.args[j], inDeny, x)
  }

  lemma InvokedMeans(p: Program, hot: set<Position>, s: CallSite, j: nat)
    requires IsHotSet(p, hot)
    ensures (s.callee, j + Offset(p, s.callee, s.isMethod)) in hot <==> IsInvoked(p, s, j)
  {
    hide Hot;
  }

  lemma HotExtraMeans(p: Program, hot: set<Position>, w: CapMap, d: FnDecl, s: CallSite, inDeny: bool, x: Capability)
    requires IsHotSet(p, hot)
    ensures x in HotExtra(p, hot, w, d, s.callee, s.args, s.isMethod, inDeny) <==> HandsOver(p, w, d, s, inDeny, x)
  {
    var offset := Offset(p, s.callee, s.isMethod);
    hide IsHotSet, IsInvoked, ArgAdds, Charge, ResolveArg, Offset;
    if x in HotExtra(p, hot, w, d, s.callee, s.args, s.isMethod, inDeny) {
      var j: nat :| j < |s.args| && (s.callee, j + offset) in hot
        && x in Charge(ResolveArg(p, hot, w, d, s.args[j]), inDeny);
      ArgCharge(p, hot, w, d, s.args[j], inDeny, x);
      InvokedMeans(p, hot, s, j);
    }
    if HandsOver(p, w, d, s, inDeny, x) {
      var j: nat :| j < |s.args| && IsInvoked(p, s, j) && ArgAdds(p, w, d, s.args[j], inDeny, x);
      ArgCharge(p, hot, w, d, s.args[j], inDeny, x);
      InvokedMeans(p, hot, s, j);
    }
  }

  lemma ArgsNeedMeans(p: Program, s: CallSite, x: Capability)
    ensures x in ArgsNeed(p, s.args) <==> HandsBuiltin(p, s, x)
  {
    forall n
      ensures x in BuiltinNeed(p, n) <==> Gates(p, n, x)
    {
    }
    hide BuiltinNeed, Gates;
  }

  lemma CollectOfSite(p: Program, hot: set<Position>, d: FnDecl, c: Cmd, x: Capability)
    requires IsHotSet(p, hot) && (c.Call? || c.MethodCall?)
    ensures x in Collect(p, hot, map[], d, c) <==> Needs(p, d, c, x)
  {
    var s := CallSite(c.callee, c.args, c.MethodCall?);
    assert Calls(c) == [s];
    assert Calls(c)[0] == s && (Needs(p, d, c, x) <==> SiteNeeds(p, d, s, x));
    hide IsHotSet, Charge, ResolveName, HotExtra, ArgsNeed, Needs, HandsBuiltin, HandsUntraceable, HandsOver,
         OwnFnParam;
    HotExtraMeans(p, hot, map[], d, s, false, x);
    FixedPart(p, d, s, x);
    ArgsNeedMeans(p, s, x);
    if c.Call? {
      CallResolves(p, hot, map[], d, c.callee, false, x);
    }
  }

  /** Without the sets of functions, what is handed over adds builtins and the untraceable. */
  lemma FixedPart(p: Program, d: FnDecl, s: CallSite, x: Capability)
    ensures HandsOver(p, map[], d, s, false, x) || HandsBuiltin(p, s, x) <==>
              (x == All && HandsUntraceable(p, d, s)) || HandsBuiltin(p, s, x)
  {
    hide IsInvoked, Untraceable, Traceable, Gates, OwnFnParam;
  }

  /** What calling a name adds when it is resolved as a value. */
  lemma CallResolves(p: Program, hot: set<Position>, w: CapMap, d: FnDecl, n: string, inDeny: bool, x: Capability)
    requires IsHotSet(p, hot)
    ensures x in Charge(ResolveName(p, hot, w, d, n), inDeny) <==>
              if OwnFnParam(d, n) then inDeny && x == All
              else if IsFree(p, n) then (if CallsItsParams(p, n) then x == All else x in Lookup(w, n))
              else if n in p.gated then Gates(p, n, x)
              else x == All
  {
    HotMeans(p, hot);
    hide Hot, CallsItsParams, HasHotParam;
  }

  lemma NeedsSplit(p: Program, d: FnDecl, a: Cmd, b: Cmd, x: Capability)
    ensures Needs(p, d, Seq(a, b), x) <==> Needs(p, d, a, x) || Needs(p, d, b, x)
  {
    hide AnySiteNeeds;
    SitesOfBoth(p, d, Calls(a), Calls(b), x);
  }

  lemma SitesOfBoth(p: Program, d: FnDecl, a: seq<CallSite>, b: seq<CallSite>, x: Capability)
    ensures AnySiteNeeds(p, d, a + b, x) <==> AnySiteNeeds(p, d, a, x) || AnySiteNeeds(p, d, b, x)
  {
    hide SiteNeeds;
    if k :| 0 <= k < |a| && SiteNeeds(p, d, a[k], x) {
      assert (a + b)[k] == a[k];
    }
    if k :| 0 <= k < |b| && SiteNeeds(p, d, b[k], x) {
      assert (a + b)[k + |a|] == b[k];
    }
  }

  lemma SameNeeds(p: Program, d: FnDecl, a: Cmd, b: Cmd, x: Capability)
    requires Calls(a) == Calls(b) && (TakesPath(a, x) <==> TakesPath(b, x))
    ensures Needs(p, d, a, x) <==> Needs(p, d, b, x)
  {
    hide SiteNeeds;
  }

  lemma {:induction false} CollectMeans(p: Program, hot: set<Position>, d: FnDecl, c: Cmd, x: Capability)
    requires IsHotSet(p, hot)
    ensures x in Collect(p, hot, map[], d, c) <==> Needs(p, d, c, x)
    decreases c
  {
    hide HotExtra, ArgsNeed, BuiltinNeed, Charge, ResolveName, Needs, NamedInInference;
    match c
    case Skip => NoCalls(p, d, c, x);
    case Return => NoCalls(p, d, c, x);
    case PathCall(_) => NoCalls(p, d, c, x);
    case Call(_, _) => CollectOfSite(p, hot, d, c, x);
    case MethodCall(_, _) => CollectOfSite(p, hot, d, c, x);
    case Seq(a, b) =>
      CollectMeans(p, hot, d, a, x);
      CollectMeans(p, hot, d, b, x);
      NeedsSplit(p, d, a, b, x);
    case While(a, b) =>
      CollectMeans(p, hot, d, a, x);
      CollectMeans(p, hot, d, b, x);
      NeedsSplit(p, d, a, b, x);
      SameNeeds(p, d, c, Seq(a, b), x);
    case If(g, a, b) =>
      CollectMeans(p, hot, d, g, x);
      CollectMeans(p, hot, d, a, x);
      CollectMeans(p, hot, d, b, x);
      NeedsSplit(p, d, g, a, x);
      NeedsSplit(p, d, Seq(g, a), b, x);
      SameNeeds(p, d, c, Seq(Seq(g, a), b), x);
    case Deny(_, b) =>
      CollectMeans(p, hot, d, b, x);
      SameNeeds(p, d, c, b, x);
  }

  lemma NoCalls(p: Program, d: FnDecl, c: Cmd, x: Capability)
    requires Calls(c) == []
    ensures Needs(p, d, c, x) <==> TakesPath(c, x)
  {
  }

  lemma TraceableMeans(p: Program, hot: set<Position>, d: FnDecl, a: Arg, g: string)
    requires IsHotSet(p, hot)
    ensures ArgRefers(p, hot, d, a, g) <==> Traceable(p, d, a, g)
  {
    HotMeans(p, hot);
    hide Hot, CallsItsParams, HasHotParam;
  }

  lemma SiteUsesMeans(p: Program, hot: set<Position>, d: FnDecl, s: CallSite, g: string)
    requires IsHotSet(p, hot)
    ensures SiteRefersTo(p, hot, d, s, g) <==> SiteUses(p, d, s, g)
  {
    var offset := Offset(p, s.callee, s.isMethod);
    hide IsHotSet, IsInvoked, ArgRefers, Traceable, Offset;
    if j: nat :| j < |s.args| && (s.callee, j + offset) in hot && ArgRefers(p, hot, d, s.args[j], g) {
      InvokedMeans(p, hot, s, j);
      TraceableMeans(p, hot, d, s.args[j], g);
    }
    if j: nat :| j < |s.args| && IsInvoked(p, s, j) && Traceable(p, d, s.args[j], g) {
      InvokedMeans(p, hot, s, j);
      TraceableMeans(p, hot, d, s.args[j], g);
    }
  }

  lemma UsesMeans(p: Program, hot: set<Position>, d: FnDecl, c: Cmd, g: string)
    requires IsHotSet(p, hot)
    ensures RefersTo(p, hot, d, c, g) <==> Uses(p, d, c, g)
  {
    hide IsHotSet, SiteRefersTo, SiteUses;
    forall k | 0 <= k < |Calls(c)|
      ensures SiteRefersTo(p, hot, d, Calls(c)[k], g) <==> SiteUses(p, d, Calls(c)[k], g)
    {
      SiteUsesMeans(p, hot, d, Calls(c)[k], g);
    }
  }

  lemma PathMeans(p: Program, hot: set<Position>, path: seq<string>, x: Capability)
    requires IsHotSet(p, hot)
    ensures IsDemandPath(p, hot, path, x) <==> IsUsePath(p, path, x)
  {
    if path != [] {
      var last := path[|path| - 1];
      assert NeedsItself(p, hot, last, x) <==>
             last in p.fns && if Unannotated(p, last) then Needs(p, p.fns[last], p.fns[last].body, x)
                              else x in p.fns[last].Declared() by {
        if last in p.fns {
          CollectMeans(p, hot, p.fns[last], p.fns[last].body, x);
        }
        hide Collect, Needs;
      }
      hide NeedsItself, Needs, RefersTo, Uses, IsHotSet;
      forall k | 0 <= k < |path| - 1
        ensures DrawsOn(p, hot, path[k], path[k + 1]) <==>
                  Unannotated(p, path[k]) && Uses(p, p.fns[path[k]], p.fns[path[k]].body, path[k + 1])
      {
        if path[k] in p.fns {
          UsesMeans(p, hot, p.fns[path[k]], p.fns[path[k]].body, path[k + 1]);
        }
      }
      if IsDemandPath(p, hot, path, x) {
        forall k | 0 <= k < |path| - 1
          ensures Unannotated(p, path[k]) && Uses(p, p.fns[path[k]], p.fns[path[k]].body, path[k + 1])
        {
          assert DrawsOn(p, hot, path[k], path[k + 1]);
        }
      }
    }
  }

  /** What is inferred for a function is what it reaches through uses: calls, and functions handed
      over to be called. */
  lemma InferenceIsReachability(p: Program, hot: set<Position>, w: CapMap, n: string, x: Capability)
    requires IsHotSet(p, hot) && IsInferredMap(p, hot, w)
    ensures x in Lookup(w, n) <==> Reaches(p, n, x)
  {
    hide IsHotSet, NeedsItself, DrawsOn, Uses, Needs;
    if path :| IsDemandPath(p, hot, path, x) && path[0] == n {
      PathMeans(p, hot, path, x);
    }
    if path :| IsUsePath(p, path, x) && path[0] == n {
      PathMeans(p, hot, path, x);
    }
  }

  // ----- acceptance -----

  /** What the name of a function stands for: what it reaches in Inferred mode, what it declares in
      the others. */
  ghost predicate Stands(p: Program, mode: Mode, n: string, x: Capability) {
    if mode == Inferred then Reaches(p, n, x)
    else n in p.fns && (p.fns[n].kind == Handler || p.fns[n].annotation.Some?) && x in p.fns[n].Declared()
  }

  /** A parameter the walk knows of; those of handlers it does not. */
  predicate IsKnownLocal(d: FnDecl, n: string) {
    d.kind != Handler && exists i | 0 <= i < |d.params| :: d.params[i].name == n
  }

  /** The walk takes the called name for a function or a builtin. */
  predicate IsNamed(p: Program, d: FnDecl, n: string) {
    !IsKnownLocal(d, n) && (IsFree(p, n) || n in p.known)
  }

  /** A function is named in value position. */
  ghost predicate NamesFunction(p: Program, mode: Mode, d: FnDecl, s: CallSite, x: Capability) {
    exists j | 0 <= j < |s.args| ::
      s.args[j].Ident? && !IsKnownLocal(d, s.args[j].name) && Stands(p, mode, s.args[j].name, x)
  }

  /** A function is handed over to be called. */
  ghost predicate HandsFunction(p: Program, mode: Mode, d: FnDecl, s: CallSite, x: Capability) {
    exists j | 0 <= j < |s.args| ::
      && IsInvoked(p, s, j) && s.args[j].Ident?
      && Traceable(p, d, s.args[j], s.args[j].name) && Stands(p, mode, s.args[j].name, x)
  }

  /** An own parameter is handed over to be called. */
  ghost predicate HandsOwnParam(p: Program, d: FnDecl, s: CallSite) {
    exists j | 0 <= j < |s.args| :: IsInvoked(p, s, j) && s.args[j].Ident? && OwnFnParam(d, s.args[j].name)
  }

  /** What a call site asks of the scope: builtins and functions called, handed over or named, and
      everything for what cannot be traced; inside `deny!` also for own parameters. */
  ghost predicate SiteAsks(p: Program, mode: Mode, d: FnDecl, inDeny: bool, s: CallSite, x: Capability) {
    || Stands(p, mode, s.callee, x)
    || (!s.isMethod && Gates(p, s.callee, x))
    || HandsBuiltin(p, s, x)
    || NamesFunction(p, mode, d, s, x)
    || HandsFunction(p, mode, d, s, x)
    || (x == All && (HandsUntraceable(p, d, s) || (inDeny && HandsOwnParam(p, d, s))))
    || (x == All && !s.isMethod && !IsNamed(p, d, s.callee)
        && if OwnFnParam(d, s.callee) then inDeny
           else if IsFree(p, s.callee) then CallsItsParams(p, s.callee)
           else s.callee !in p.gated)
  }

  /** Somewhere in the body `x` is asked for, with exactly `within` denied by the blocks around. */
  ghost predicate Asks(p: Program, mode: Mode, d: FnDecl, enforcing: bool, inDeny: bool, denied: CapSet, c: Cmd,
                       x: Capability, within: CapSet)
    decreases c
  {
    match c
    case Skip => false
    case Return => false
    case PathCall(cap) => x == cap && within == denied
    case Call(n, args) => enforcing && within == denied && SiteAsks(p, mode, d, inDeny, CallSite(n, args, false), x)
    case MethodCall(n, args) => enforcing && within == denied
      && SiteAsks(p, mode, d, inDeny, CallSite(n, args, true), x)
    case Seq(a, b) =>
      || Asks(p, mode, d, enforcing, inDeny, denied, a, x, within)
      || Asks(p, mode, d, enforcing, inDeny, denied, b, x, within)
    case If(g, a, b) =>
      || Asks(p, mode, d, enforcing, inDeny, denied, g, x, within)
      || Asks(p, mode, d, enforcing, inDeny, denied, a, x, within)
      || Asks(p, mode, d, enforcing, inDeny, denied, b, x, within)
    case While(g, b) =>
      || Asks(p, mode, d, enforcing, inDeny, denied, g, x, within)
      || Asks(p, mode, d, enforcing, inDeny, denied, b, x, within)
    case Deny(more, b) => Asks(p, mode, d, true, true, denied + more, b, x, within)
  }

  /** Guards fire in every function, but in Permissive mode in annotated ones only. */
  predicate IsGuarded(p: Program, mode: Mode, n: string)
    requires n in p.fns
  {
    mode != Permissive || p.fns[n].annotation.Some?
  }

  /** The grant of a function: what it declares, or in Inferred mode, for a function that declares
      nothing and is not `main`, what it reaches. */
  ghost predicate HoldsGrant(p: Program, mode: Mode, n: string, h: Capability)
    requires n in p.fns
  {
    if mode == Inferred && Unannotated(p, n) && n != "main" then Reaches(p, n, h) else h in p.fns[n].Declared()
  }

  /** Some capability of the grant satisfies `x` and overlaps nothing denied. */
  ghost predicate GrantsWithin(p: Program, mode: Mode, n: string, x: Capability, within: CapSet)
    requires n in p.fns
  {
    exists h: Capability :: HoldsGrant(p, mode, n, h) && h.Satisfies(x) && forall e | e in within :: !h.Overlaps(e)
  }

  // ----- the enforcement walk says the same -----

  ghost predicate MapMeans(p: Program, mode: Mode, w: CapMap) {
    forall n, x :: x in Lookup(w, n) <==> Stands(p, mode, n, x)
  }

  lemma EnforcementMapMeans(p: Program, mode: Mode, hot: set<Position>, w: CapMap)
    requires IsHotSet(p, hot) && IsEnforcementMap(p, mode, hot, w)
    ensures MapMeans(p, mode, w)
  {
    hide IsHotSet, Reaches;
    forall n, x
      ensures x in Lookup(w, n) <==> Stands(p, mode, n, x)
    {
      if mode == Inferred {
        InferenceIsReachability(p, hot, w, n, x);
      }
    }
  }

  lemma ArgsAuthorityMeans(p: Program, mode: Mode, w: CapMap, d: FnDecl, s: CallSite, x: Capability)
    requires MapMeans(p, mode, w)
    ensures x in ArgsAuthority(w, d, s.args) <==> NamesFunction(p, mode, d, s, x)
  {
    var args := s.args;
    hide Stands, IsKnownLocal;
    forall n
      ensures LocalInEnforcement(d, n) <==> IsKnownLocal(d, n)
    {
      SameLocal(d, n);
    }
    hide LocalInEnforcement;
    if j :| 0 <= j < |args| && args[j].Ident? && !IsKnownLocal(d, args[j].name) && Stands(p, mode, args[j].name, x) {
      assert x in Lookup(w, args[j].name);
    }
  }

  lemma SameLocal(d: FnDecl, n: string)
    ensures LocalInEnforcement(d, n) <==> IsKnownLocal(d, n)
  {
  }

  /** What every call site asks of the scope, whether a method is called or not. */
  ghost predicate AsksAnyhow(p: Program, mode: Mode, d: FnDecl, inDeny: bool, s: CallSite, x: Capability) {
    || Stands(p, mode, s.callee, x)
    || HandsBuiltin(p, s, x)
    || NamesFunction(p, mode, d, s, x)
    || HandsFunction(p, mode, d, s, x)
    || (x == All && (HandsUntraceable(p, d, s) || (inDeny && HandsOwnParam(p, d, s))))
  }

  /** What calling a name that is no function asks for on top. */
  ghost predicate AsksByName(p: Program, d: FnDecl, inDeny: bool, n: string, x: Capability) {
    || Gates(p, n, x)
    || (x == All && !IsNamed(p, d, n)
        && if OwnFnParam(d, n) then inDeny
           else if IsFree(p, n) then CallsItsParams(p, n)
           else n !in p.gated)
  }

  lemma AnyhowMeans(p: Program, mode: Mode, hot: set<Position>, w: CapMap, d: FnDecl, inDeny: bool, s: CallSite,
                    x: Capability)
    requires IsHotSet(p, hot) && MapMeans(p, mode, w)
    ensures x in Lookup(w, s.callee) + HotExtra(p, hot, w, d, s.callee, s.args, s.isMethod, inDeny)
                 + ArgsNeed(p, s.args) + ArgsAuthority(w, d, s.args) <==>
              AsksAnyhow(p, mode, d, inDeny, s, x)
  {
    HotExtraMeans(p, hot, w, d, s, inDeny, x);
    HandsOverMeans(p, mode, w, d, s, inDeny, x);
    ArgsNeedMeans(p, s, x);
    ArgsAuthorityMeans(p, mode, w, d, s, x);
    LookupMeans(p, mode, w, s.callee, x);
    hide Lookup, HotExtra, ArgsNeed, ArgsAuthority, Stands, HandsOver, HandsBuiltin, HandsUntraceable, HandsFunction,
         HandsOwnParam, NamesFunction, MapMeans, IsHotSet;
  }

  lemma ByNameMeans(p: Program, hot: set<Position>, w: CapMap, d: FnDecl, inDeny: bool, n: string, x: Capability)
    requires IsHotSet(p, hot)
    ensures x in BuiltinNeed(p, n) || x in Lookup(w, n)
            || (!NamedInEnforcement(p, d, n) && x in Charge(ResolveName(p, hot, w, d, n), inDeny)) <==>
              AsksByName(p, d, inDeny, n, x) || x in Lookup(w, n)
  {
    CallResolves(p, hot, w, d, n, inDeny, x);
    SameLocal(d, n);
    hide IsHotSet, Charge, ResolveName, CallsItsParams, LocalInEnforcement, IsKnownLocal, Lookup, OwnFnParam;
  }

  lemma DemandOfMethod(p: Program, mode: Mode, hot: set<Position>, w: CapMap, d: FnDecl, inDeny: bool, n: string,
                       args: seq<Arg>, x: Capability)
    requires IsHotSet(p, hot) && MapMeans(p, mode, w)
    ensures x in Demand(p, hot, w, d, inDeny, MethodCall(n, args)) <==>
              SiteAsks(p, mode, d, inDeny, CallSite(n, args, true), x)
  {
    AnyhowMeans(p, mode, hot, w, d, inDeny, CallSite(n, args, true), x);
    hide Lookup, HotExtra, ArgsNeed, ArgsAuthority, Stands, HandsBuiltin, HandsUntraceable, HandsFunction,
         HandsOwnParam, NamesFunction, MapMeans, IsHotSet;
  }

  lemma DemandOfCall(p: Program, mode: Mode, hot: set<Position>, w: CapMap, d: FnDecl, inDeny: bool, n: string,
                     args: seq<Arg>, x: Capability)
    requires IsHotSet(p, hot) && MapMeans(p, mode, w)
    ensures x in Demand(p, hot, w, d, inDeny, Call(n, args)) <==>
              SiteAsks(p, mode, d, inDeny, CallSite(n, args, false), x)
  {
    AnyhowMeans(p, mode, hot, w, d, inDeny, CallSite(n, args, false), x);
    ByNameMeans(p, hot, w, d, inDeny, n, x);
    hide Lookup, HotExtra, ArgsNeed, ArgsAuthority, Stands, HandsBuiltin, HandsUntraceable, HandsFunction,
         HandsOwnParam, NamesFunction, MapMeans, IsHotSet, BuiltinNeed, Charge, ResolveName, NamedInEnforcement,
         Gates, IsNamed, OwnFnParam, IsFree, CallsItsParams;
  }

  lemma LookupMeans(p: Program, mode: Mode, w: CapMap, n: string, x: Capability)
    requires MapMeans(p, mode, w)
    ensures x in Lookup(w, n) <==> Stands(p, mode, n, x)
  {
    hide Stands, Lookup;
  }

  lemma DemandOfSite(p: Program, mode: Mode, hot: set<Position>, w: CapMap, d: FnDecl, inDeny: bool, c: Cmd,
                     x: Capability)
    requires IsHotSet(p, hot) && MapMeans(p, mode, w) && (c.Call? || c.MethodCall?)
    ensures x in Demand(p, hot, w, d, inDeny, c) <==>
              SiteAsks(p, mode, d, inDeny, CallSite(c.callee, c.args, c.MethodCall?), x)
  {
    hide *;
    if c.Call? {
      DemandOfCall(p, mode, hot, w, d, inDeny, c.callee, c.args, x);
    } else {
      DemandOfMethod(p, mode, hot, w, d, inDeny, c.callee, c.args, x);
    }
  }

  /** The same with what names stand for in place of the map. */
  lemma HandsOverMeans(p: Program, mode: Mode, w: CapMap, d: FnDecl, s: CallSite, inDeny: bool, x: Capability)
    requires MapMeans(p, mode, w)
    ensures HandsOver(p, w, d, s, inDeny, x) || HandsBuiltin(p, s, x) <==>
              || (x == All && (HandsUntraceable(p, d, s) || (inDeny && HandsOwnParam(p, d, s))))
              || HandsFunction(p, mode, d, s, x)
              || HandsBuiltin(p, s, x)
  {
    hide IsInvoked, Untraceable, Traceable, OwnFnParam, Stands, Gates;
    forall j | 0 <= j < |s.args| && s.args[j].Ident?
      ensures x in Lookup(w, s.args[j].name) <==> Stands(p, mode, s.args[j].name, x)
    {
    }
  }

  lemma LeafAsks(p: Program, mode: Mode, hot: set<Position>, w: CapMap, d: FnDecl, enforcing: bool, inDeny: bool,
                 denied: CapSet, c: Cmd, x: Capability, within: CapSet)
    requires IsHotSet(p, hot) && MapMeans(p, mode, w)
    requires c.Skip? || c.Return? || c.PathCall? || c.Call? || c.MethodCall?
    ensures Guarded(x, within) in GuardedDemands(p, hot, w, d, enforcing, inDeny, denied, c) <==>
              Asks(p, mode, d, enforcing, inDeny, denied, c, x, within)
  {
    if c.Call? || c.MethodCall? {
      DemandOfSite(p, mode, hot, w, d, inDeny, c, x);
    }
    hide SiteAsks, IsHotSet, MapMeans, HotExtra, ArgsNeed, ArgsAuthority, Charge, ResolveName, BuiltinNeed;
  }

  lemma {:induction false} DemandsMean(p: Program, mode: Mode, hot: set<Position>, w: CapMap, d: FnDecl,
                                       enforcing: bool,
                                       inDeny: bool, denied: CapSet, c: Cmd, x: Capability, within: CapSet)
    requires IsHotSet(p, hot) && MapMeans(p, mode, w)
    ensures Guarded(x, within) in GuardedDemands(p, hot, w, d, enforcing, inDeny, denied, c) <==>
              Asks(p, mode, d, enforcing, inDeny, denied, c, x, within)
    decreases c
  {
    hide SiteAsks, IsHotSet, MapMeans, SiteDemand;
    match c
    case Seq(a, b) =>
      DemandsMean(p, mode, hot, w, d, enforcing, inDeny, denied, a, x, within);
      DemandsMean(p, mode, hot, w, d, enforcing, inDeny, denied, b, x, within);
    case If(g, a, b) =>
      DemandsMean(p, mode, hot, w, d, enforcing, inDeny, denied, g, x, within);
      DemandsMean(p, mode, hot, w, d, enforcing, inDeny, denied, a, x, within);
      DemandsMean(p, mode, hot, w, d, enforcing, inDeny, denied, b, x, within);
    case While(g, b) =>
      DemandsMean(p, mode, hot, w, d, enforcing, inDeny, denied, g, x, within);
      DemandsMean(p, mode, hot, w, d, enforcing, inDeny, denied, b, x, within);
    case Deny(more, b) => DemandsMean(p, mode, hot, w, d, true, true, denied + more, b, x, within);
    case _ => LeafAsks(p, mode, hot, w, d, enforcing, inDeny, denied, c, x, within);
  }

  lemma EntryMeans(p: Program, mode: Mode, w: CapMap, n: string)
    requires n in p.fns && MapMeans(p, mode, w)
    ensures var at := Entry(p, mode, w, n);
            && at.enforcing == IsGuarded(p, mode, n)
            && forall h :: h in at.caps <==> HoldsGrant(p, mode, n, h)
  {
    hide Reaches;
    forall h
      ensures h in Lookup(w, n) <==> Stands(p, mode, n, h)
    {
    }
  }

  lemma MeetsMeans(p: Program, mode: Mode, hot: set<Position>, w: CapMap, n: string)
    requires n in p.fns && IsHotSet(p, hot) && MapMeans(p, mode, w)
    ensures Meets(Entry(p, mode, w, n).caps, FunctionDemands(p, mode, hot, w, n)) <==>
              forall x: Capability, within |
                Asks(p, mode, p.fns[n], IsGuarded(p, mode, n), false, {}, p.fns[n].body, x, within) ::
                GrantsWithin(p, mode, n, x, within)
  {
    var d, at := p.fns[n], Entry(p, mode, w, n);
    EntryMeans(p, mode, w, n);
    hide MapMeans, IsHotSet, Asks, GuardedDemands, HoldsGrant, Entry, IsGuarded;
    forall x: Capability, within
      ensures Guarded(x, within) in FunctionDemands(p, mode, hot, w, n) <==>
                Asks(p, mode, d, IsGuarded(p, mode, n), false, {}, d.body, x, within)
    {
      DemandsMean(p, mode, hot, w, d, at.enforcing, false, {}, d.body, x, within);
    }
    forall x: Capability, within
      ensures SatisfiesRequired(Without(at.caps, within), x) <==> GrantsWithin(p, mode, n, x, within)
    {
      WithoutMeans(p, mode, n, at.caps, x, within);
    }
    hide FunctionDemands, SatisfiesRequired, Without, GrantsWithin;
    if Meets(at.caps, FunctionDemands(p, mode, hot, w, n)) {
      forall x: Capability, within | Asks(p, mode, d, IsGuarded(p, mode, n), false, {}, d.body, x, within)
        ensures GrantsWithin(p, mode, n, x, within)
      {
        assert Guarded(x, within) in FunctionDemands(p, mode, hot, w, n);
      }
    } else {
      var g :| g in FunctionDemands(p, mode, hot, w, n) && !SatisfiesRequired(Without(at.caps, g.denied), g.cap);
      assert g == Guarded(g.cap, g.denied);
      assert Asks(p, mode, d, IsGuarded(p, mode, n), false, {}, d.body, g.cap, g.denied);
    }
  }

  lemma WithoutMeans(p: Program, mode: Mode, n: string, caps: CapSet, x: Capability, within: CapSet)
    requires n in p.fns && forall h :: h in caps <==> HoldsGrant(p, mode, n, h)
    ensures SatisfiesRequired(Without(caps, within), x) <==> GrantsWithin(p, mode, n, x, within)
  {
    hide HoldsGrant;
    if SatisfiesRequired(Without(caps, within), x) {
      var h :| h in Without(caps, within) && h.Satisfies(x);
      assert HoldsGrant(p, mode, n, h);
    }
    if h: Capability :| HoldsGrant(p, mode, n, h) && h.Satisfies(x) && forall e | e in within :: !h.Overlaps(e) {
      assert h in Without(caps, within);
    }
  }

  /** A program is accepted exactly if everything its functions ask for, under the denials around
      it, is granted. */
  lemma AcceptanceIsGranting(p: Program, mode: Mode, hot: set<Position>, w: CapMap)
    requires p.WellFormed() && IsHotSet(p, hot) && IsEnforcementMap(p, mode, hot, w)
    ensures Accepts(p, mode, hot, w) <==>
              forall n, x: Capability, within |
                n in p.fns && Asks(p, mode, p.fns[n], IsGuarded(p, mode, n), false, {}, p.fns[n].body, x, within) ::
                GrantsWithin(p, mode, n, x, within)
  {
    AcceptsExactlyWithDeny(p, mode, hot, w);
    EnforcementMapMeans(p, mode, hot, w);
    hide MapMeans, IsHotSet, Asks, GrantsWithin, Meets, FunctionDemands, Entry, IsGuarded, Accepts, IsEnforcementMap;
    forall n | n in p.fns
      ensures Meets(Entry(p, mode, w, n).caps, FunctionDemands(p, mode, hot, w, n)) <==>
                forall x: Capability, within |
                  Asks(p, mode, p.fns[n], IsGuarded(p, mode, n), false, {}, p.fns[n].body, x, within) ::
                  GrantsWithin(p, mode, n, x, within)
    {
      MeetsMeans(p, mode, hot, w, n);
    }
  }
}
