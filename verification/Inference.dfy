/** What a call is charged for, and the inferred capability sets of unannotated functions
    (checker.rs `collect_caps_*`, `compute_inferred_capabilities`). The fixed point is
    characterised by chains of references, whatever the declaration order. */
module Inference {
  import opened Capabilities
  import opened Language
  import opened HotParams
  import opened Sets

  type CapMap = map<string, CapSet>

  function Lookup(w: CapMap, n: string): CapSet {
    if n in w then w[n] else {}
  }

  // ----- what a function value carries -----

  datatype ClosureCaps = Known(caps: CapSet) | DependsOnParam(name: string) | Unknown

  predicate HasHotParam(hot: set<Position>, n: string) {
    exists pos | pos in hot :: pos.0 == n
  }

  function BuiltinNeed(p: Program, n: string): CapSet {
    if !p.Defined(n) && n in p.gated then {p.gated[n]} else {}
  }

  /** The authority of the function value `n` inside `d`: an own parameter is deferred to
      `d`'s call sites, a function that itself calls a parameter cannot be vouched for. */
  function ResolveName(p: Program, hot: set<Position>, w: CapMap, d: FnDecl, n: string): ClosureCaps {
    if OwnFnParam(d, n) then DependsOnParam(n)
    else if p.Defined(n) then (if HasHotParam(hot, n) then Unknown else Known(Lookup(w, n)))
    else if n in p.gated then Known({p.gated[n]})
    else Unknown
  }

  function ResolveArg(p: Program, hot: set<Position>, w: CapMap, d: FnDecl, a: Arg): ClosureCaps {
    match a
    case Ident(n) => ResolveName(p, hot, w, d, n)
    case Plain => Unknown
  }

  /** A deferred parameter is free where the function was entered, and needs `all` inside a
      `deny!` block: its call sites are checked against the wider entry scope. */
  function Charge(r: ClosureCaps, inDeny: bool): CapSet {
    match r
    case Known(caps) => caps
    case DependsOnParam(_) => if inDeny then {All} else {}
    case Unknown => {All}
  }

  /** The charge for the arguments that land in hot positions of `callee`. */
  function HotExtra(p: Program, hot: set<Position>, w: CapMap, d: FnDecl,
                    callee: string, args: seq<Arg>, isMethod: bool, inDeny: bool): CapSet
  {
    var offset := Offset(p, callee, isMethod);
    set j: nat, c | 0 <= j < |args| && (callee, j + offset) in hot
      && c in Charge(ResolveArg(p, hot, w, d, args[j]), inDeny) :: c
  }

  // ----- the inference walk -----

  /** A gated builtin in value position delegates its authority. */
  function ArgsNeed(p: Program, args: seq<Arg>): CapSet {
    set k, c | 0 <= k < |args| && args[k].Ident? && c in BuiltinNeed(p, args[k].name) :: c
  }

  predicate NamedInInference(p: Program, d: FnDecl, n: string) {
    !OwnFnParam(d, n) && (p.Defined(n) || n in p.known)
  }

  function Collect(p: Program, hot: set<Position>, w: CapMap, d: FnDecl, c: Cmd): CapSet {
    match c
    case Skip => {}
    case Return => {}
    case PathCall(cap) => {cap}
    case Call(n, args) =>
      BuiltinNeed(p, n) + Lookup(w, n) + HotExtra(p, hot, w, d, n, args, false, false)
      + (if NamedInInference(p, d, n) then {} else Charge(ResolveName(p, hot, w, d, n), false))
      + ArgsNeed(p, args)
    case MethodCall(n, args) =>
      Lookup(w, n) + HotExtra(p, hot, w, d, n, args, true, false) + ArgsNeed(p, args)
    case Seq(a, b) => Collect(p, hot, w, d, a) + Collect(p, hot, w, d, b)
    case If(g, a, b) => Collect(p, hot, w, d, g) + Collect(p, hot, w, d, a) + Collect(p, hot, w, d, b)
    case While(g, b) => Collect(p, hot, w, d, g) + Collect(p, hot, w, d, b)
    case Deny(_, b) => Collect(p, hot, w, d, b)
  }

  /** Argument `a` stands for a function whose whole set is charged when it is called. */
  predicate ArgRefers(p: Program, hot: set<Position>, d: FnDecl, a: Arg, g: string) {
    a == Ident(g) && !OwnFnParam(d, g) && p.Defined(g) && !HasHotParam(hot, g)
  }

  /** Body `c` of `d` draws on the set of `g`: it calls `g`, or hands `g` to a hot position. */
  predicate RefersTo(p: Program, hot: set<Position>, d: FnDecl, c: Cmd, g: string) {
    exists k | 0 <= k < |Calls(c)| :: SiteRefersTo(p, hot, d, Calls(c)[k], g)
  }

  predicate SiteRefersTo(p: Program, hot: set<Position>, d: FnDecl, s: CallSite, g: string) {
    || s.callee == g
    || exists j: nat | 0 <= j < |s.args| ::
         (s.callee, j + Offset(p, s.callee, s.isMethod)) in hot && ArgRefers(p, hot, d, s.args[j], g)
  }

  lemma RefersSplit(p: Program, hot: set<Position>, d: FnDecl, a: Cmd, b: Cmd, g: string)
    ensures RefersTo(p, hot, d, Seq(a, b), g) <==> RefersTo(p, hot, d, a, g) || RefersTo(p, hot, d, b, g)
  {
    var s := Calls(Seq(a, b));
    if RefersTo(p, hot, d, a, g) {
      var k :| 0 <= k < |Calls(a)| && SiteRefersTo(p, hot, d, Calls(a)[k], g);
      assert s[k] == Calls(a)[k];
    }
    if RefersTo(p, hot, d, b, g) {
      var k :| 0 <= k < |Calls(b)| && SiteRefersTo(p, hot, d, Calls(b)[k], g);
      assert s[k + |Calls(a)|] == Calls(b)[k];
    }
    if RefersTo(p, hot, d, Seq(a, b), g) {
      var k :| 0 <= k < |s| && SiteRefersTo(p, hot, d, s[k], g);
      if k >= |Calls(a)| {
        assert s[k] == Calls(b)[k - |Calls(a)|];
      }
    }
  }

  lemma HotExtraIsLinear(p: Program, hot: set<Position>, w: CapMap, d: FnDecl, s: CallSite, c: Capability)
    ensures c in HotExtra(p, hot, w, d, s.callee, s.args, s.isMethod, false) ==>
              || c in HotExtra(p, hot, map[], d, s.callee, s.args, s.isMethod, false)
              || exists g :: SiteRefersTo(p, hot, d, s, g) && c in Lookup(w, g)
    ensures c in HotExtra(p, hot, map[], d, s.callee, s.args, s.isMethod, false) ==>
              c in HotExtra(p, hot, w, d, s.callee, s.args, s.isMethod, false)
    ensures forall g | SiteRefersTo(p, hot, d, s, g) && s.callee != g && c in Lookup(w, g) ::
              c in HotExtra(p, hot, w, d, s.callee, s.args, s.isMethod, false)
  {
    var offset := Offset(p, s.callee, s.isMethod);
    if c in HotExtra(p, hot, w, d, s.callee, s.args, s.isMethod, false) {
      var j: nat :| j < |s.args| && (s.callee, j + offset) in hot
        && c in Charge(ResolveArg(p, hot, w, d, s.args[j]), false);
      if s.args[j].Ident? && ArgRefers(p, hot, d, s.args[j], s.args[j].name) {
        assert SiteRefersTo(p, hot, d, s, s.args[j].name);
      } else {
        assert c in Charge(ResolveArg(p, hot, map[], d, s.args[j]), false);
      }
    }
    if c in HotExtra(p, hot, map[], d, s.callee, s.args, s.isMethod, false) {
      var j: nat :| j < |s.args| && (s.callee, j + offset) in hot
        && c in Charge(ResolveArg(p, hot, map[], d, s.args[j]), false);
      assert c in Charge(ResolveArg(p, hot, w, d, s.args[j]), false);
    }
    forall g | SiteRefersTo(p, hot, d, s, g) && s.callee != g && c in Lookup(w, g)
      ensures c in HotExtra(p, hot, w, d, s.callee, s.args, s.isMethod, false)
    {
      var j: nat :| j < |s.args| && (s.callee, j + offset) in hot && ArgRefers(p, hot, d, s.args[j], g);
      assert c in Charge(ResolveArg(p, hot, w, d, s.args[j]), false);
    }
  }

  lemma CollectSiteIsLinear(p: Program, hot: set<Position>, w: CapMap, d: FnDecl, c: Cmd, x: Capability)
    requires c.Call? || c.MethodCall?
    ensures x in Collect(p, hot, w, d, c) <==>
              || x in Collect(p, hot, map[], d, c)
              || exists g :: RefersTo(p, hot, d, c, g) && x in Lookup(w, g)
  {
    var s := Calls(c)[0];
    assert Calls(c) == [s];
    HotExtraIsLinear(p, hot, w, d, s, x);
    assert forall g :: RefersTo(p, hot, d, c, g) <==> SiteRefersTo(p, hot, d, s, g);
    assert SiteRefersTo(p, hot, d, s, s.callee);
    if x in Lookup(w, s.callee) {
      assert RefersTo(p, hot, d, c, s.callee);
    }
  }

  /** The walk is linear in the working map: a fixed part plus the sets of what it refers to. */
  lemma {:induction false} CollectIsLinear(p: Program, hot: set<Position>, w: CapMap, d: FnDecl, c: Cmd, x: Capability)
    ensures x in Collect(p, hot, w, d, c) <==>
              || x in Collect(p, hot, map[], d, c)
              || exists g :: RefersTo(p, hot, d, c, g) && x in Lookup(w, g)
  {
    match c
    case Skip =>
    case Return =>
    case PathCall(_) =>
    case Call(_, _) => CollectSiteIsLinear(p, hot, w, d, c, x);
    case MethodCall(_, _) => CollectSiteIsLinear(p, hot, w, d, c, x);
    case Seq(a, b) =>
      CollectIsLinear(p, hot, w, d, a, x);
      CollectIsLinear(p, hot, w, d, b, x);
      forall g ensures RefersTo(p, hot, d, c, g) <==> RefersTo(p, hot, d, a, g) || RefersTo(p, hot, d, b, g) {
        RefersSplit(p, hot, d, a, b, g);
      }
    case While(a, b) =>
      CollectIsLinear(p, hot, w, d, a, x);
      CollectIsLinear(p, hot, w, d, b, x);
      forall g ensures RefersTo(p, hot, d, c, g) <==> RefersTo(p, hot, d, a, g) || RefersTo(p, hot, d, b, g) {
        RefersSplit(p, hot, d, a, b, g);
        assert Calls(c) == Calls(Seq(a, b));
      }
    case If(g0, a, b) =>
      CollectIsLinear(p, hot, w, d, g0, x);
      CollectIsLinear(p, hot, w, d, a, x);
      CollectIsLinear(p, hot, w, d, b, x);
      forall g ensures RefersTo(p, hot, d, c, g) <==>
          RefersTo(p, hot, d, g0, g) || RefersTo(p, hot, d, a, g) || RefersTo(p, hot, d, b, g) {
        RefersSplit(p, hot, d, g0, a, g);
        RefersSplit(p, hot, d, Seq(g0, a), b, g);
        assert Calls(c) == Calls(Seq(Seq(g0, a), b));
      }
    case Deny(_, b) =>
      CollectIsLinear(p, hot, w, d, b, x);
      assert Calls(c) == Calls(b);
  }

  // ----- demands: reachability through unannotated functions -----

  /** The functions whose set is inferred. Annotated functions and handlers keep a declared one. */
  predicate Inferable(p: Program, n: string) {
    n in p.fns && p.fns[n].kind != Handler && !p.fns[n].Annotated()
  }

  predicate HasCeiling(p: Program, n: string) {
    n in p.fns && (p.fns[n].kind == Handler || p.fns[n].Annotated())
  }

  predicate NeedsItself(p: Program, hot: set<Position>, n: string, x: Capability) {
    || (HasCeiling(p, n) && x in p.fns[n].Declared())
    || (Inferable(p, n) && x in Collect(p, hot, map[], p.fns[n], p.fns[n].body))
  }

  predicate DrawsOn(p: Program, hot: set<Position>, n: string, g: string) {
    Inferable(p, n) && RefersTo(p, hot, p.fns[n], p.fns[n].body, g)
  }

  predicate IsDemandPath(p: Program, hot: set<Position>, path: seq<string>, x: Capability) {
    && |path| > 0
    && NeedsItself(p, hot, path[|path| - 1], x)
    && forall k | 0 <= k < |path| - 1 :: DrawsOn(p, hot, path[k], path[k + 1])
  }

  /** `x` is reachable from `n` through unannotated functions. */
  ghost predicate Demands(p: Program, hot: set<Position>, n: string, x: Capability) {
    exists path :: IsDemandPath(p, hot, path, x) && path[0] == n
  }

  lemma DemandsExtend(p: Program, hot: set<Position>, n: string, g: string, x: Capability)
    requires DrawsOn(p, hot, n, g) && Demands(p, hot, g, x)
    ensures Demands(p, hot, n, x)
  {
    var path :| IsDemandPath(p, hot, path, x) && path[0] == g;
    var longer := [n] + path;
    forall k | 0 <= k < |longer| - 1
      ensures DrawsOn(p, hot, longer[k], longer[k + 1])
    {
      if k > 0 {
        assert longer[k] == path[k - 1] && longer[k + 1] == path[k];
      }
    }
    assert IsDemandPath(p, hot, longer, x) && longer[0] == n;
  }

  lemma DemandsBase(p: Program, hot: set<Position>, n: string, x: Capability)
    requires NeedsItself(p, hot, n, x)
    ensures Demands(p, hot, n, x)
  {
    assert IsDemandPath(p, hot, [n], x) && [n][0] == n;
  }

  /** A path drops its head. */
  lemma DemandPathTail(p: Program, hot: set<Position>, path: seq<string>, x: Capability)
    requires IsDemandPath(p, hot, path, x) && |path| > 1
    ensures IsDemandPath(p, hot, path[1..], x)
  {
    var rest := path[1..];
    forall k | 0 <= k < |rest| - 1
      ensures DrawsOn(p, hot, rest[k], rest[k + 1])
    {
      assert DrawsOn(p, hot, path[k + 1], path[k + 2]);
    }
  }

  /** `w` already contains every declared ceiling and is closed under the inference step. */
  ghost predicate ClosedMap(p: Program, hot: set<Position>, w: CapMap) {
    && (forall n | HasCeiling(p, n) :: p.fns[n].Declared() <= Lookup(w, n))
    && (forall n | Inferable(p, n) :: Collect(p, hot, w, p.fns[n], p.fns[n].body) <= Lookup(w, n))
  }

  /** Demands lie below every closed map: they are the least fixed point. */
  lemma {:induction false} DemandsAreLeast(p: Program, hot: set<Position>, w: CapMap, path: seq<string>, x: Capability)
    requires ClosedMap(p, hot, w) && IsDemandPath(p, hot, path, x)
    ensures x in Lookup(w, path[0])
    decreases |path|
  {
    var n := path[0];
    if |path| > 1 {
      DemandPathTail(p, hot, path, x);
      DemandsAreLeast(p, hot, w, path[1..], x);
      assert DrawsOn(p, hot, path[0], path[1]);
      CollectIsLinear(p, hot, w, p.fns[n], p.fns[n].body, x);
    } else if Inferable(p, n) {
      CollectIsLinear(p, hot, w, p.fns[n], p.fns[n].body, x);
    }
  }

  /** `w` holds exactly the demands. */
  ghost predicate IsInferredMap(p: Program, hot: set<Position>, w: CapMap) {
    forall n, x :: x in Lookup(w, n) <==> Demands(p, hot, n, x)
  }

  lemma SoundAndClosedMapIsInferred(p: Program, hot: set<Position>, w: CapMap)
    requires ClosedMap(p, hot, w)
    requires forall n, x | x in Lookup(w, n) :: Demands(p, hot, n, x)
    ensures IsInferredMap(p, hot, w)
  {
    forall n, x | Demands(p, hot, n, x)
      ensures x in Lookup(w, n)
    {
      var path :| IsDemandPath(p, hot, path, x) && path[0] == n;
      DemandsAreLeast(p, hot, w, path, x);
    }
  }

  /** What the walk collects over sound sets is demanded. */
  lemma CollectedIsDemanded(p: Program, hot: set<Position>, w: CapMap, n: string, x: Capability)
    requires Inferable(p, n) && x in Collect(p, hot, w, p.fns[n], p.fns[n].body)
    requires forall m, y | y in Lookup(w, m) :: Demands(p, hot, m, y)
    ensures Demands(p, hot, n, x)
  {
    var d := p.fns[n];
    CollectIsLinear(p, hot, w, d, d.body, x);
    if x in Collect(p, hot, map[], d, d.body) {
      DemandsBase(p, hot, n, x);
    } else {
      var g :| RefersTo(p, hot, d, d.body, g) && x in Lookup(w, g);
      DemandsExtend(p, hot, n, g, x);
    }
  }

  lemma InferredMapIsClosed(p: Program, hot: set<Position>, w: CapMap)
    requires IsInferredMap(p, hot, w)
    ensures ClosedMap(p, hot, w)
  {
    forall n | HasCeiling(p, n)
      ensures p.fns[n].Declared() <= Lookup(w, n)
    {
      forall x | x in p.fns[n].Declared()
        ensures x in Lookup(w, n)
      {
        DemandsBase(p, hot, n, x);
      }
    }
    forall n | Inferable(p, n)
      ensures Collect(p, hot, w, p.fns[n], p.fns[n].body) <= Lookup(w, n)
    {
      forall x | x in Collect(p, hot, w, p.fns[n], p.fns[n].body)
        ensures x in Lookup(w, n)
      {
        CollectedIsDemanded(p, hot, w, n, x);
      }
    }
  }

  /** A declared ceiling is never widened by the body under it. */
  lemma CeilingIsExact(p: Program, hot: set<Position>, w: CapMap, n: string)
    requires IsInferredMap(p, hot, w) && n in p.fns && !Inferable(p, n)
    ensures Lookup(w, n) == p.fns[n].Declared()
  {
    forall x | x in Lookup(w, n)
      ensures x in p.fns[n].Declared()
    {
      var path :| IsDemandPath(p, hot, path, x) && path[0] == n;
      assert |path| > 1 ==> DrawsOn(p, hot, path[0], path[1]);
    }
    InferredMapIsClosed(p, hot, w);
  }

  // ----- the computation -----

  /** The declared ceilings: the seed of the working map, and the whole map outside Inferred mode. */
  function DeclaredMap(p: Program): CapMap {
    map n | n in p.fns && (p.fns[n].kind == Handler || p.fns[n].Annotated()) :: p.fns[n].Declared()
  }

  /** Facts not yet in the map: the measure of the loop. */
  ghost function Missing(p: Program, w: CapMap): set<(string, Capability)> {
    set n, c: Capability | n in p.fns && c !in Lookup(w, n) :: (n, c)
  }

  /** Every fact in the map is demanded, and the declared ceilings are in it. */
  ghost predicate SoundMap(p: Program, hot: set<Position>, w: CapMap) {
    && (forall n, x | x in Lookup(w, n) :: Demands(p, hot, n, x))
    && (forall n | HasCeiling(p, n) :: p.fns[n].Declared() <= Lookup(w, n))
  }

  lemma DeclaredMapIsSound(p: Program, hot: set<Position>)
    ensures SoundMap(p, hot, DeclaredMap(p))
  {
    var w := DeclaredMap(p);
    forall n, x | x in Lookup(w, n)
      ensures Demands(p, hot, n, x)
    {
      DemandsBase(p, hot, n, x);
    }
  }

  lemma MergingStaysSound(p: Program, hot: set<Position>, w: CapMap, n: string)
    requires SoundMap(p, hot, w) && Inferable(p, n)
    ensures SoundMap(p, hot, w[n := Lookup(w, n) + Collect(p, hot, w, p.fns[n], p.fns[n].body)])
  {
    hide Demands, Collect;
    forall x | x in Collect(p, hot, w, p.fns[n], p.fns[n].body)
      ensures Demands(p, hot, n, x)
    {
      CollectedIsDemanded(p, hot, w, n, x);
    }
  }

  method ComputeInferredCapabilities(p: Program, hot: set<Position>) returns (working: CapMap)
    requires p.WellFormed()
    ensures IsInferredMap(p, hot, working)
  {
    working := DeclaredMap(p);
    DeclaredMapIsSound(p, hot);
    hide Demands, Collect, SoundMap, DeclaredMap, Missing;
    var changed := true;
    while changed
      invariant SoundMap(p, hot, working)
      invariant !changed ==> Settled(p, hot, working, |p.order|)
      decreases Missing(p, working), changed
    {
      changed := false;
      ghost var before := working;
      for k := 0 to |p.order|
        invariant SoundMap(p, hot, working)
        invariant Missing(p, working) <= Missing(p, before)
        invariant changed ==> Missing(p, working) < Missing(p, before)
        invariant !changed ==> working == before && Settled(p, hot, working, k)
      {
        var name := p.order[k];
        if p.fns[name].kind != Handler && !p.fns[name].Annotated() {
          var collected := Collect(p, hot, working, p.fns[name], p.fns[name].body);
          var cur := Lookup(working, name);
          var merged := cur + collected;
          if |merged| != |cur| {
            MergingStaysSound(p, hot, working, name);
            GrowingShrinksMissing(p, working, name, merged);
            working := working[name := merged];
            changed := true;
          } else {
            SubsetSize(cur, merged);
          }
        }
      }
    }
    SettledMapIsInferred(p, hot, working);
  }

  /** The first `k` functions would collect nothing new. */
  predicate Settled(p: Program, hot: set<Position>, w: CapMap, k: nat)
    requires p.WellFormed() && k <= |p.order|
  {
    forall m | 0 <= m < k && Inferable(p, p.order[m]) ::
      Collect(p, hot, w, p.fns[p.order[m]], p.fns[p.order[m]].body) <= Lookup(w, p.order[m])
  }

  lemma SettledMapIsInferred(p: Program, hot: set<Position>, w: CapMap)
    requires p.WellFormed() && SoundMap(p, hot, w) && Settled(p, hot, w, |p.order|)
    ensures IsInferredMap(p, hot, w)
  {
    hide Demands, Collect;
    forall n | Inferable(p, n)
      ensures Collect(p, hot, w, p.fns[n], p.fns[n].body) <= Lookup(w, n)
    {
      var m :| 0 <= m < |p.order| && p.order[m] == n;
    }
    SoundAndClosedMapIsInferred(p, hot, w);
  }

  lemma GrowingShrinksMissing(p: Program, w: CapMap, n: string, merged: CapSet)
    requires n in p.fns && Lookup(w, n) <= merged && |merged| != |Lookup(w, n)|
    ensures Missing(p, w[n := merged]) < Missing(p, w)
  {
    assert merged - Lookup(w, n) != {} by {
      assert merged == Lookup(w, n) + (merged - Lookup(w, n));
    }
    var x :| x in merged - Lookup(w, n);
    assert (n, x) in Missing(p, w) && (n, x) !in Missing(p, w[n := merged]);
  }

  // ----- first-order programs: plain call-graph reachability -----

  /** No function value is passed and none is received; no call names a parameter. */
  ghost predicate FirstOrder(p: Program) {
    forall n | n in p.fns ::
      && (forall i | 0 <= i < |p.fns[n].params| :: !p.fns[n].params[i].fnTyped)
      && (forall k | 0 <= k < |Calls(p.fns[n].body)| :: SiteIsFirstOrder(p.fns[n], Calls(p.fns[n].body)[k]))
  }

  predicate SiteIsFirstOrder(d: FnDecl, s: CallSite) {
    && (forall j | 0 <= j < |s.args| :: s.args[j] == Plain)
    && (s.isMethod || !IsLocal(d, s.callee))
  }

  predicate FirstOrderBody(d: FnDecl, c: Cmd) {
    forall k | 0 <= k < |Calls(c)| :: SiteIsFirstOrder(d, Calls(c)[k])
  }

  lemma FirstOrderHasNoHotParams(p: Program, hot: set<Position>)
    requires FirstOrder(p) && IsHotSet(p, hot)
    ensures hot == {}
  {
    assert forall pos :: !CalledDirectly(p, pos);
    assert forall pos :: !Hot(p, pos);
  }

  /** Needs that a body states outright: a gated builtin, a gated path, or a call of a name
      that resolves to nothing (charged `all`). */
  predicate NeedsDirectly(p: Program, c: Cmd, x: Capability) {
    match c
    case PathCall(cap) => x == cap
    case Call(n, _) =>
      && !p.Defined(n)
      && if n in p.gated then x == p.gated[n] else n !in p.known && x == All
    case Seq(a, b) => NeedsDirectly(p, a, x) || NeedsDirectly(p, b, x)
    case If(g, a, b) => NeedsDirectly(p, g, x) || NeedsDirectly(p, a, x) || NeedsDirectly(p, b, x)
    case While(g, b) => NeedsDirectly(p, g, x) || NeedsDirectly(p, b, x)
    case Deny(_, b) => NeedsDirectly(p, b, x)
    case _ => false
  }

  predicate CallsByName(c: Cmd, g: string) {
    exists k | 0 <= k < |Calls(c)| :: Calls(c)[k].callee == g
  }

  lemma FirstOrderParts(d: FnDecl, a: Cmd, b: Cmd)
    ensures FirstOrderBody(d, Seq(a, b)) <==> FirstOrderBody(d, a) && FirstOrderBody(d, b)
  {
    var s := Calls(Seq(a, b));
    if FirstOrderBody(d, Seq(a, b)) {
      forall k | 0 <= k < |Calls(a)|
        ensures SiteIsFirstOrder(d, Calls(a)[k])
      {
        assert s[k] == Calls(a)[k];
      }
      forall k | 0 <= k < |Calls(b)|
        ensures SiteIsFirstOrder(d, Calls(b)[k])
      {
        assert s[k + |Calls(a)|] == Calls(b)[k];
      }
    }
  }

  lemma FirstOrderSite(p: Program, d: FnDecl, c: Cmd, x: Capability)
    requires FirstOrderBody(d, c) && (c.Call? || c.MethodCall?)
    ensures x in Collect(p, {}, map[], d, c) <==> NeedsDirectly(p, c, x)
  {
    assert SiteIsFirstOrder(d, Calls(c)[0]);
    assert ArgsNeed(p, c.args) == {};
    assert !c.MethodCall? ==> !OwnFnParam(d, c.callee);
  }

  lemma {:induction false} FirstOrderCollect(p: Program, d: FnDecl, c: Cmd, x: Capability)
    requires FirstOrderBody(d, c)
    ensures x in Collect(p, {}, map[], d, c) <==> NeedsDirectly(p, c, x)
  {
    hide HotExtra, ArgsNeed, BuiltinNeed, NamedInInference, Charge, SiteIsFirstOrder;
    match c
    case Skip =>
    case Return =>
    case PathCall(_) =>
    case Call(_, _) => FirstOrderSite(p, d, c, x);
    case MethodCall(_, _) => FirstOrderSite(p, d, c, x);
    case Seq(a, b) =>
      FirstOrderParts(d, a, b);
      FirstOrderCollect(p, d, a, x);
      FirstOrderCollect(p, d, b, x);
    case If(g, a, b) =>
      FirstOrderParts(d, g, a);
      FirstOrderParts(d, Seq(g, a), b);
      assert Calls(c) == Calls(Seq(Seq(g, a), b));
      FirstOrderCollect(p, d, g, x);
      FirstOrderCollect(p, d, a, x);
      FirstOrderCollect(p, d, b, x);
    case While(a, b) =>
      FirstOrderParts(d, a, b);
      assert Calls(c) == Calls(Seq(a, b));
      FirstOrderCollect(p, d, a, x);
      FirstOrderCollect(p, d, b, x);
    case Deny(_, b) =>
      assert Calls(c) == Calls(b);
      FirstOrderCollect(p, d, b, x);
  }

  /** A path in the call graph whose inner nodes are unannotated functions, ending in an
      annotated function that declares `x` or an unannotated one whose body needs it. */
  predicate IsCallPath(p: Program, path: seq<string>, x: Capability) {
    && |path| > 0
    && (forall k | 0 <= k < |path| - 1 :: Inferable(p, path[k]) && CallsByName(p.fns[path[k]].body, path[k + 1]))
    && var last := path[|path| - 1];
       || (HasCeiling(p, last) && x in p.fns[last].Declared())
       || (Inferable(p, last) && NeedsDirectly(p, p.fns[last].body, x))
  }

  lemma RefersByName(p: Program, d: FnDecl, c: Cmd, g: string)
    ensures RefersTo(p, {}, d, c, g) <==> CallsByName(c, g)
  {
    var calls := Calls(c);
    assert forall k | 0 <= k < |calls| :: SiteRefersTo(p, {}, d, calls[k], g) <==> calls[k].callee == g;
  }

  /** Demand paths are call paths. */
  lemma DemandPathIsCallPath(p: Program, path: seq<string>, x: Capability)
    requires FirstOrder(p)
    ensures IsDemandPath(p, {}, path, x) <==> IsCallPath(p, path, x)
  {
    hide FirstOrder, Collect, NeedsDirectly, RefersTo, CallsByName;
    if path != [] {
      var last := path[|path| - 1];
      assert NeedsItself(p, {}, last, x) <==>
        (HasCeiling(p, last) && x in p.fns[last].Declared())
          || (Inferable(p, last) && NeedsDirectly(p, p.fns[last].body, x)) by {
        if last in p.fns {
          FirstOrderNeeds(p, last, x);
        }
      }
      forall k | 0 <= k < |path| - 1
        ensures DrawsOn(p, {}, path[k], path[k + 1])
                <==> Inferable(p, path[k]) && CallsByName(p.fns[path[k]].body, path[k + 1])
      {
        if Inferable(p, path[k]) {
          RefersByName(p, p.fns[path[k]], p.fns[path[k]].body, path[k + 1]);
        }
      }
      if IsDemandPath(p, {}, path, x) {
        forall k | 0 <= k < |path| - 1
          ensures Inferable(p, path[k]) && CallsByName(p.fns[path[k]].body, path[k + 1])
        {
          assert DrawsOn(p, {}, path[k], path[k + 1]);
        }
      }
    }
  }

  lemma FirstOrderNeeds(p: Program, n: string, x: Capability)
    requires FirstOrder(p) && n in p.fns
    ensures x in Collect(p, {}, map[], p.fns[n], p.fns[n].body) <==> NeedsDirectly(p, p.fns[n].body, x)
  {
    FirstOrderCollect(p, p.fns[n], p.fns[n].body, x);
  }

  /** In a first-order program the inferred set is reachability in the call graph. */
  lemma FirstOrderInferenceIsReachability(p: Program, hot: set<Position>, w: CapMap, n: string, x: Capability)
    requires FirstOrder(p) && IsHotSet(p, hot) && IsInferredMap(p, hot, w)
    ensures x in Lookup(w, n) <==> exists path :: IsCallPath(p, path, x) && path[0] == n
  {
    FirstOrderHasNoHotParams(p, hot);
    hide IsDemandPath, IsCallPath, FirstOrder, IsHotSet;
    if path :| IsDemandPath(p, hot, path, x) && path[0] == n {
      DemandPathIsCallPath(p, path, x);
    }
    if path :| IsCallPath(p, path, x) && path[0] == n {
      DemandPathIsCallPath(p, path, x);
    }
  }
}
