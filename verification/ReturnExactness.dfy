/** The summaries of returned closures claim no more than is returned (checker.rs
    `compute_fn_return_closure_caps`): every capability of a known summary is carried by a closure
    that the function can return, and the summary is known wherever nothing stands in the way. */
module ReturnExactness {
  import opened Wrappers
  import opened Capabilities
  import opened Language
  import opened Inference
  import opened ClosureReturns

  // ----- what can be returned, within any number of calls -----

  ghost predicate CanYield(t: Table, d: RetFn, env: Env, e: RetExpr, x: Capability) {
    exists fuel: nat, a :: Yields(fuel, t, d, env, e, a) && x in a
  }

  /** Some closure that `f` returns under `env` carries `x`. */
  ghost predicate CanReturn(t: Table, f: string, env: Env, x: Capability)
    requires f in t.fns
  {
    exists fuel: nat, a :: Returns(fuel, t, f, env, a) && x in a
  }

  /** Every function can return something, and calls functions of the table. */
  ghost predicate Answering(t: Table) {
    && (forall f, env: Env | f in t.fns && Binds(t.fns[f], env) ::
          exists fuel: nat, a :: Returns(fuel, t, f, env, a))
    && (forall f, k | f in t.fns && 0 <= k < |t.fns[f].exits| :: WithinTable(t, t.fns[f].exits[k]))
  }

  predicate WithinTable(t: Table, e: RetExpr)
    decreases e
  {
    e.CallOf? ==> e.fn in t.fns && forall i | 0 <= i < |e.args| :: WithinTable(t, e.args[i])
  }

  /** `inner` binds the parameters of `g` to what the arguments yield. */
  ghost predicate Enters(fuel: nat, t: Table, d: RetFn, env: Env, g: string, args: seq<RetExpr>, inner: Env)
    requires g in t.fns
  {
    && Binds(t.fns[g], inner)
    && forall i | 0 <= i < |args| && i < |t.fns[g].params| && t.fns[g].params[i].fnTyped ::
         Yields(fuel, t, d, env, args[i], inner[t.fns[g].params[i].name])
  }

  lemma CallEnters(fuel: nat, t: Table, d: RetFn, env: Env, g: string, args: seq<RetExpr>, a: CapSet)
    returns (inner: Env)
    requires Yields(fuel, t, d, env, CallOf(g, args), a)
    ensures fuel > 0 && g in t.fns && Enters(fuel, t, d, env, g, args, inner) && Returns(fuel - 1, t, g, inner, a)
  {
    hide Returns;
    inner :| Binds(t.fns[g], inner)
      && (forall i | 0 <= i < |args| && i < |t.fns[g].params| && t.fns[g].params[i].fnTyped ::
            Yields(fuel, t, d, env, args[i], inner[t.fns[g].params[i].name]))
      && Returns(fuel - 1, t, g, inner, a);
  }

  lemma EnteredCallYields(fuel: nat, t: Table, d: RetFn, env: Env, g: string, args: seq<RetExpr>, inner: Env, a: CapSet)
    requires fuel > 0 && g in t.fns && Enters(fuel, t, d, env, g, args, inner) && Returns(fuel - 1, t, g, inner, a)
    ensures Yields(fuel, t, d, env, CallOf(g, args), a)
  {
    hide Returns;
    assert Binds(t.fns[g], inner);
  }

  lemma {:induction false} YieldsMore(fuel: nat, more: nat, t: Table, d: RetFn, env: Env, e: RetExpr, a: CapSet)
    requires fuel <= more && Yields(fuel, t, d, env, e, a)
    ensures Yields(more, t, d, env, e, a)
    decreases fuel, e
  {
    if e.CallOf? {
      hide Yields, Returns, Binds;
      var inner := CallEnters(fuel, t, d, env, e.fn, e.args, a);
      var callee := t.fns[e.fn];
      forall i | 0 <= i < |e.args| && i < |callee.params| && callee.params[i].fnTyped
        ensures Yields(more, t, d, env, e.args[i], inner[callee.params[i].name])
      {
        YieldsMore(fuel, more, t, d, env, e.args[i], inner[callee.params[i].name]);
      }
      ReturnsMore(fuel - 1, more - 1, t, e.fn, inner, a);
      EnteredCallYields(more, t, d, env, e.fn, e.args, inner, a);
    }
  }

  lemma {:induction false} ReturnsMore(fuel: nat, more: nat, t: Table, f: string, env: Env, a: CapSet)
    requires f in t.fns && fuel <= more && Returns(fuel, t, f, env, a)
    ensures Returns(more, t, f, env, a)
    decreases fuel
  {
    hide Yields;
    var k :| 0 <= k < |t.fns[f].exits| && Yields(fuel, t, t.fns[f], env, t.fns[f].exits[k], a);
    YieldsMore(fuel, more, t, t.fns[f], env, t.fns[f].exits[k], a);
  }

  // ----- calls -----

  /** The authorities `given` bound to the function-typed parameters by position. */
  function Bound(params: seq<Param>, given: seq<CapSet>): Env {
    if params == [] then map[]
    else
      var rest := Bound(params[..|params| - 1], given);
      var last := |params| - 1;
      if params[last].fnTyped then rest[params[last].name := if last < |given| then given[last] else {}] else rest
  }

  lemma {:induction false} BoundBinds(params: seq<Param>, given: seq<CapSet>)
    requires DistinctNames(params)
    ensures forall n | n in Bound(params, given) :: exists i | 0 <= i < |params| :: params[i].name == n
    ensures forall i | 0 <= i < |params| && params[i].fnTyped ::
              && params[i].name in Bound(params, given)
              && Bound(params, given)[params[i].name] == if i < |given| then given[i] else {}
    decreases |params|
  {
    if params != [] {
      BoundBinds(params[..|params| - 1], given);
      assert forall i | 0 <= i < |params| - 1 :: params[..|params| - 1][i] == params[i];
    }
  }

  ghost predicate ArgsYield(fuel: nat, t: Table, d: RetFn, env: Env, args: seq<RetExpr>, given: seq<CapSet>) {
    |given| == |args| && forall i | 0 <= i < |args| :: Yields(fuel, t, d, env, args[i], given[i])
  }

  /** A call whose arguments evaluate and whose callee returns. */
  lemma CallYields(t: Table, d: RetFn, env: Env, g: string, args: seq<RetExpr>, fuel: nat, given: seq<CapSet>,
                   inside: nat, a: CapSet)
    requires t.WellFormed() && g in t.fns && ArgsYield(fuel, t, d, env, args, given)
    requires Returns(inside, t, g, Bound(t.fns[g].params, given), a)
    ensures Yields(fuel + inside + 1, t, d, env, CallOf(g, args), a)
  {
    var callee, total := t.fns[g], fuel + inside + 1;
    var inner := Bound(callee.params, given);
    BoundBinds(callee.params, given);
    hide Yields, Returns;
    forall i | 0 <= i < |args| && i < |callee.params| && callee.params[i].fnTyped
      ensures Yields(total, t, d, env, args[i], inner[callee.params[i].name])
    {
      YieldsMore(fuel, total, t, d, env, args[i], given[i]);
    }
    ReturnsMore(inside, total - 1, t, g, inner, a);
    EnteredCallYields(total, t, d, env, g, args, inner, a);
  }

  lemma {:induction false} ArgsAnswer(t: Table, d: RetFn, env: Env, args: seq<RetExpr>, n: nat)
      returns (fuel: nat, given: seq<CapSet>)
    requires t.WellFormed() && Answering(t) && Binds(d, env)
    requires n <= |args| && forall i | 0 <= i < |args| :: WithinTable(t, args[i])
    ensures ArgsYield(fuel, t, d, env, args[..n], given)
    decreases args, n
  {
    if n == 0 {
      fuel, given := 0, [];
    } else {
      var fuel0, given0 := ArgsAnswer(t, d, env, args, n - 1);
      var fuel1, a := Answers(t, d, env, args[n - 1]);
      fuel, given := fuel0 + fuel1, given0 + [a];
      hide Yields;
      forall i | 0 <= i < n
        ensures Yields(fuel, t, d, env, args[i], given[i])
      {
        if i < n - 1 {
          assert args[..n - 1][i] == args[i];
          YieldsMore(fuel0, fuel, t, d, env, args[i], given[i]);
        } else {
          YieldsMore(fuel1, fuel, t, d, env, args[i], a);
        }
      }
    }
  }

  /** Every expression evaluates to some closure. */
  lemma {:induction false} Answers(t: Table, d: RetFn, env: Env, e: RetExpr) returns (fuel: nat, a: CapSet)
    requires t.WellFormed() && Answering(t) && Binds(d, env) && WithinTable(t, e)
    ensures Yields(fuel, t, d, env, e, a)
    decreases e
  {
    match e
    case Lambda(params, calls, needs) => fuel, a := 0, needs + Authority(env, Captured(d, params, calls));
    case Name(n) => fuel, a := 0, if IsFnParam(d, n) then env[n] else {};
    case CallOf(g, args) =>
      var outside, given := ArgsAnswer(t, d, env, args, |args|);
      assert args[..|args|] == args;
      BoundBinds(t.fns[g].params, given);
      var inner := Bound(t.fns[g].params, given);
      assert Binds(t.fns[g], inner);
      var inside: nat, b :| Returns(inside, t, g, inner, b);
      CallYields(t, d, env, g, args, outside, given, inside, b);
      fuel, a := outside + inside + 1, b;
  }

  // ----- tightness -----

  /** No lambda is deferred to a parameter of its own that an enclosing parameter shares its name with. */
  predicate Crisp(d: RetFn, e: RetExpr)
    requires e.Lambda?
  {
    var own := OwnCalls(e.params, e.calls);
    own != [] && e.needs == {} ==> !IsParam(d, own[0])
  }

  predicate AllCrisp(d: RetFn, e: RetExpr)
    decreases e
  {
    match e
    case Lambda(_, _, _) => Crisp(d, e)
    case Name(_) => true
    case CallOf(_, args) => forall i | 0 <= i < |args| :: AllCrisp(d, args[i])
  }

  ghost predicate CrispTable(t: Table) {
    forall f, k | f in t.fns && 0 <= k < |t.fns[f].exits| :: AllCrisp(t.fns[f], t.fns[f].exits[k])
  }

  /** A resolution of `e` claims nothing that `e` cannot yield. */
  ghost predicate ExprIsTight(t: Table, d: RetFn, e: RetExpr, c: ClosureCaps) {
    match c
    case Known(s) => forall env: Env, x | Binds(d, env) && x in s :: CanYield(t, d, env, e, x)
    case DependsOnParam(p) =>
      IsParam(d, p) ==>
        && IsFnParam(d, p)
        && forall env: Env, x | Binds(d, env) && x in env[p] :: CanYield(t, d, env, e, x)
    case Unknown => true
  }

  ghost predicate SummaryIsTight(t: Table, f: string, c: ClosureCaps)
    requires f in t.fns
  {
    match c
    case Known(s) => forall env: Env, x | Binds(t.fns[f], env) && x in s :: CanReturn(t, f, env, x)
    case DependsOnParam(p) =>
      IsParam(t.fns[f], p) ==>
        && IsFnParam(t.fns[f], p)
        && forall env: Env, x | Binds(t.fns[f], env) && x in env[p] :: CanReturn(t, f, env, x)
    case Unknown => true
  }

  ghost predicate AllTight(t: Table, r: Summaries) {
    forall f | f in t.fns :: SummaryIsTight(t, f, Summary(r, f))
  }

  /** What the theorems below ask of a table. */
  ghost predicate Plausible(t: Table) {
    && t.WellFormed() && Answering(t) && CrispTable(t)
    && (forall n | n in t.globals :: !t.globals[n].DependsOnParam?)
  }

  lemma LambdaIsTight(t: Table, r: Summaries, d: RetFn, e: RetExpr)
    requires e.Lambda? && Crisp(d, e)
    ensures ExprIsTight(t, d, e, Resolve(t, r, d, e))
  {
    var captured := Captured(d, e.params, e.calls);
    forall env: Env, x | Binds(d, env)
      ensures x in e.needs ==> CanYield(t, d, env, e, x)
      ensures captured != [] && captured[0] in env && x in env[captured[0]] ==> CanYield(t, d, env, e, x)
    {
      var a := e.needs + Authority(env, captured);
      assert Yields(0, t, d, env, e, a);
      if captured != [] && captured[0] in env {
        assert captured[0] in captured;
        AuthorityOfMember(env, captured, captured[0]);
      }
    }
    if captured != [] {
      assert captured[0] in captured;
    }
  }

  /** Where the lambda's own parameter shares a name with a parameter of the function, the callers
      of the function are charged for an argument that the returned closure never calls. */
  lemma LambdaIsTightExactly(t: Table, r: Summaries, d: RetFn, e: RetExpr)
    requires e.Lambda?
    ensures ExprIsTight(t, d, e, Resolve(t, r, d, e)) <==> Crisp(d, e)
  {
    var own, captured := OwnCalls(e.params, e.calls), Captured(d, e.params, e.calls);
    if Crisp(d, e) {
      LambdaIsTight(t, r, d, e);
    } else if IsFnParam(d, own[0]) {
      OwnCallsAreOwn(e.params, e.calls);
      assert own[0] in own;
      var env := Spotlight(d, own[0], Net);
      SpotlightBinds(d, own[0], Net);
      NothingCaptured(d, env, own[0], captured);
      assert forall fuel: nat, a | Yields(fuel, t, d, env, e, a) :: a == {};
      assert !CanYield(t, d, env, e, Net);
    }
  }

  lemma {:induction false} NothingCaptured(d: RetFn, env: Env, n: string, names: seq<string>)
    requires env == Spotlight(d, n, Net) && n !in names
    ensures Authority(env, names) == {}
    decreases |names|
  {
    if names != [] {
      assert names[0] != n && forall m | m in names[1..] :: m in names;
      NothingCaptured(d, env, n, names[1..]);
    }
  }

  lemma NameIsTight(t: Table, r: Summaries, d: RetFn, n: string)
    requires forall m | m in t.globals :: !t.globals[m].DependsOnParam?
    ensures ExprIsTight(t, d, Name(n), Resolve(t, r, d, Name(n)))
  {
    forall env: Env, x | Binds(d, env)
      ensures IsFnParam(d, n) && x in env[n] ==> CanYield(t, d, env, Name(n), x)
      ensures !IsFnParam(d, n) && n in t.globals && t.globals[n].Known? && x in t.globals[n].caps ==>
                CanYield(t, d, env, Name(n), x)
    {
      if IsFnParam(d, n) {
        assert Yields(0, t, d, env, Name(n), env[n]);
      } else if n in t.globals && t.globals[n].Known? {
        assert Yields(0, t, d, env, Name(n), t.globals[n].caps);
      }
    }
  }

  /** A call yields what its callee can return whatever the arguments are. */
  lemma CallCarries(t: Table, d: RetFn, env: Env, g: string, args: seq<RetExpr>, x: Capability)
    requires t.WellFormed() && Answering(t) && Binds(d, env) && WithinTable(t, CallOf(g, args))
    requires forall inner: Env | Binds(t.fns[g], inner) :: CanReturn(t, g, inner, x)
    ensures CanYield(t, d, env, CallOf(g, args), x)
  {
    var fuel, given := ArgsAnswer(t, d, env, args, |args|);
    assert args[..|args|] == args;
    BoundBinds(t.fns[g].params, given);
    var inner := Bound(t.fns[g].params, given);
    assert Binds(t.fns[g], inner);
    var inside: nat, a :| Returns(inside, t, g, inner, a) && x in a;
    CallYields(t, d, env, g, args, fuel, given, inside, a);
  }

  /** A call of a function that returns what it is given yields what that argument carries. */
  lemma CallForwards(t: Table, d: RetFn, env: Env, g: string, args: seq<RetExpr>, i: nat, x: Capability)
    requires t.WellFormed() && Answering(t) && Binds(d, env) && WithinTable(t, CallOf(g, args))
    requires i < |args| && i < |t.fns[g].params| && t.fns[g].params[i].fnTyped
    requires CanYield(t, d, env, args[i], x)
    requires forall inner: Env | Binds(t.fns[g], inner) && x in inner[t.fns[g].params[i].name] ::
               CanReturn(t, g, inner, x)
    ensures CanYield(t, d, env, CallOf(g, args), x)
  {
    var fuel0, given0 := ArgsAnswer(t, d, env, args, |args|);
    assert args[..|args|] == args;
    var fuel1: nat, b :| Yields(fuel1, t, d, env, args[i], b) && x in b;
    var fuel, given := fuel0 + fuel1, given0[i := b];
    forall j | 0 <= j < |args|
      ensures Yields(fuel, t, d, env, args[j], given[j])
    {
      if j == i {
        YieldsMore(fuel1, fuel, t, d, env, args[j], b);
      } else {
        YieldsMore(fuel0, fuel, t, d, env, args[j], given[j]);
      }
    }
    BoundBinds(t.fns[g].params, given);
    var inner := Bound(t.fns[g].params, given);
    assert Binds(t.fns[g], inner) && inner[t.fns[g].params[i].name] == b;
    var inside: nat, a :| Returns(inside, t, g, inner, a) && x in a;
    CallYields(t, d, env, g, args, fuel, given, inside, a);
  }

  lemma {:induction false} ResolveIsTight(t: Table, r: Summaries, d: RetFn, e: RetExpr)
    requires Plausible(t) && AllTight(t, r) && AllCrisp(d, e) && WithinTable(t, e)
    ensures ExprIsTight(t, d, e, Resolve(t, r, d, e))
    decreases e
  {
    hide Plausible, Yields, Returns, CanYield, CanReturn;
    assert Plausible(t);
    match e
    case Lambda(_, _, _) => LambdaIsTight(t, r, d, e);
    case Name(n) =>
      PlausibleParts(t);
      NameIsTight(t, r, d, n);
    case CallOf(g, args) =>
      PlausibleParts(t);
      assert SummaryIsTight(t, g, Summary(r, g));
      match Summary(r, g)
      case Unknown =>
      case Known(s) =>
        forall env: Env, x | Binds(d, env) && x in s
          ensures CanYield(t, d, env, e, x)
        {
          CallCarries(t, d, env, g, args, x);
        }
      case DependsOnParam(p) =>
        var i := ParamIndex(t.fns[g].params, p);
        if i < |t.fns[g].params| && i < |args| {
          ResolveIsTight(t, r, d, args[i]);
          DeferredIsTight(t, r, d, g, args, i);
        }
  }

  lemma PlausibleParts(t: Table)
    requires Plausible(t)
    ensures t.WellFormed() && Answering(t) && forall n | n in t.globals :: !t.globals[n].DependsOnParam?
  {
  }

  lemma DeferredIsTight(t: Table, r: Summaries, d: RetFn, g: string, args: seq<RetExpr>, i: nat)
    requires t.WellFormed() && Answering(t) && WithinTable(t, CallOf(g, args))
    requires i < |args| && i < |t.fns[g].params| && SummaryIsTight(t, g, DependsOnParam(t.fns[g].params[i].name))
    requires ExprIsTight(t, d, args[i], Resolve(t, r, d, args[i]))
    ensures ExprIsTight(t, d, CallOf(g, args), Resolve(t, r, d, args[i]))
  {
    hide Yields, Returns, CanYield, CanReturn, Answering;
    var p := t.fns[g].params[i].name;
    assert IsParam(t.fns[g], p) && IsFnParam(t.fns[g], p);
    assert t.fns[g].params[i].fnTyped by {
      var k :| 0 <= k < |t.fns[g].params| && t.fns[g].params[k] == Param(p, true);
      assert DistinctNames(t.fns[g].params);
    }
    forall env: Env, x | Binds(d, env) && CanYield(t, d, env, args[i], x)
      ensures CanYield(t, d, env, CallOf(g, args), x)
    {
      CallForwards(t, d, env, g, args, i, x);
    }
  }

  // ----- the merge of the returns -----

  /** A merge is known exactly if every return is, and then it is their union. */
  lemma {:induction false} MergeOfKnown(t: Table, r: Summaries, d: RetFn, exits: seq<RetExpr>)
    requires exits != []
    ensures MergeReturns(t, r, d, exits).Known? <==> forall k | 0 <= k < |exits| :: Resolve(t, r, d, exits[k]).Known?
    ensures MergeReturns(t, r, d, exits).Known? ==> forall x: Capability ::
              x in MergeReturns(t, r, d, exits).caps <==>
                exists k | 0 <= k < |exits| :: Resolve(t, r, d, exits[k]).Known? && x in Resolve(t, r, d, exits[k]).caps
    decreases |exits|
  {
    hide Resolve;
    if |exits| > 1 {
      var init := exits[..|exits| - 1];
      MergeOfKnown(t, r, d, init);
      assert forall k | 0 <= k < |init| :: init[k] == exits[k];
      assert exits == init + [exits[|exits| - 1]];
    }
  }

  /** It is deferred to `p` exactly if every return is. */
  lemma {:induction false} MergeOfDeferred(t: Table, r: Summaries, d: RetFn, exits: seq<RetExpr>, p: string)
    requires exits != []
    ensures MergeReturns(t, r, d, exits) == DependsOnParam(p) <==>
              forall k | 0 <= k < |exits| :: Resolve(t, r, d, exits[k]) == DependsOnParam(p)
    decreases |exits|
  {
    hide Resolve;
    if |exits| > 1 {
      var init := exits[..|exits| - 1];
      MergeOfDeferred(t, r, d, init, p);
      assert forall k | 0 <= k < |init| :: init[k] == exits[k];
      assert exits == init + [exits[|exits| - 1]];
    }
  }

  lemma ReturnCarries(t: Table, f: string, env: Env, k: nat, x: Capability)
    requires f in t.fns && k < |t.fns[f].exits| && CanYield(t, t.fns[f], env, t.fns[f].exits[k], x)
    ensures CanReturn(t, f, env, x)
  {
    hide Yields;
    var fuel: nat, a :| Yields(fuel, t, t.fns[f], env, t.fns[f].exits[k], a) && x in a;
    assert Returns(fuel, t, f, env, a);
  }

  lemma MergeIsTight(t: Table, r: Summaries, f: string)
    requires Plausible(t) && AllTight(t, r) && f in t.fns && t.fns[f].exits != []
    ensures SummaryIsTight(t, f, MergeReturns(t, r, t.fns[f], t.fns[f].exits))
  {
    var d := t.fns[f];
    var exits := d.exits;
    assert forall k | 0 <= k < |exits| :: AllCrisp(d, exits[k]) && WithinTable(t, exits[k]);
    hide Plausible, AllTight, CanYield, CanReturn, Resolve, MergeReturns, AllCrisp, WithinTable;
    forall k | 0 <= k < |exits|
      ensures ExprIsTight(t, d, exits[k], Resolve(t, r, d, exits[k]))
    {
      ResolveIsTight(t, r, d, exits[k]);
    }
    forall k, env: Env, x | 0 <= k < |exits| && CanYield(t, d, env, exits[k], x)
      ensures CanReturn(t, f, env, x)
    {
      ReturnCarries(t, f, env, k, x);
    }
    match MergeReturns(t, r, d, exits)
    case Known(s) =>
      MergeOfKnown(t, r, d, exits);
    case DependsOnParam(p) =>
      MergeOfDeferred(t, r, d, exits, p);
      assert Resolve(t, r, d, exits[0]) == DependsOnParam(p);
    case Unknown =>
  }

  // ----- the greatest fixed point is reached from unknown -----

  lemma RecomputeStaysTight(t: Table, r: Summaries, f: string)
    requires Plausible(t) && AllTight(t, r) && f in t.fns && t.fns[f].exits != []
    ensures AllTight(t, r[f := MergeReturns(t, r, t.fns[f], t.fns[f].exits)])
  {
    hide SummaryIsTight, Plausible, MergeReturns;
    MergeIsTight(t, r, f);
  }

  lemma {:induction false} Descend(t: Table, r: Summaries, order: seq<string>) returns (s: Summaries)
    requires Plausible(t) && AllTight(t, r) && Approaching(t, r) && forall f :: f in order <==> f in t.fns
    ensures AllTight(t, s) && IsGreatest(t, s)
    decreases TotalRank(r, order)
  {
    hide Plausible, AllTight, Approaching, MergeReturns, TotalRank, IsGreatest;
    if ClosureReturns.Settled(t, r, order, |order|) {
      SettledIsGreatest(t, r, order);
      s := r;
    } else {
      var m :| 0 <= m < |order| && t.fns[order[m]].exits != []
        && Summary(r, order[m]) != MergeReturns(t, r, t.fns[order[m]], t.fns[order[m]].exits);
      RecomputeApproaches(t, r, order, order[m]);
      RecomputeStaysTight(t, r, order[m]);
      s := Descend(t, r[order[m] := MergeReturns(t, r, t.fns[order[m]], t.fns[order[m]].exits)], order);
    }
  }

  lemma {:induction false} InOrder(names: set<string>) returns (order: seq<string>)
    ensures forall f :: f in order <==> f in names
  {
    if names == {} {
      order := [];
    } else {
      var f :| f in names;
      var rest := InOrder(names - {f});
      order := [f] + rest;
    }
  }

  lemma GreatestIsUnique(t: Table, r: Summaries, s: Summaries, f: string)
    requires IsGreatest(t, r) && IsGreatest(t, s)
    ensures Summary(r, f) == Summary(s, f)
  {
    assert AllAtMost(r, s) && AllAtMost(s, r);
    assert AtMost(Summary(r, f), Summary(s, f)) && AtMost(Summary(s, f), Summary(r, f));
  }

  lemma GreatestIsTight(t: Table, r: Summaries)
    requires Plausible(t) && IsGreatest(t, r)
    ensures AllTight(t, r)
  {
    assert AllTight(t, map[]) && Approaching(t, map[]);
    var order := InOrder(t.fns.Keys);
    hide Plausible, IsGreatest, SummaryIsTight, Approaching;
    var s := Descend(t, map[], order);
    forall f | f in t.fns
      ensures SummaryIsTight(t, f, Summary(r, f))
    {
      GreatestIsUnique(t, r, s, f);
    }
  }

  /** The converse of `SummariesAreSound`: whatever the arguments, every capability of a known
      summary is carried by a closure that the function can return. */
  lemma KnownSummariesAreTight(t: Table, r: Summaries, f: string, env: Env, x: Capability)
    requires Plausible(t) && IsGreatest(t, r) && f in t.fns && Binds(t.fns[f], env)
    requires Summary(r, f).Known? && x in Summary(r, f).caps
    ensures CanReturn(t, f, env, x)
  {
    GreatestIsTight(t, r);
    assert SummaryIsTight(t, f, Summary(r, f));
  }

  /** Both together: a known summary is the union of the authorities of what is returned. */
  lemma KnownSummariesAreExact(t: Table, r: Summaries, f: string, env: Env, x: Capability)
    requires Plausible(t) && TameTable(t) && IsGreatest(t, r) && f in t.fns && Binds(t.fns[f], env)
    requires Summary(r, f).Known?
    ensures x in Summary(r, f).caps <==> CanReturn(t, f, env, x)
  {
    if x in Summary(r, f).caps {
      KnownSummariesAreTight(t, r, f, env, x);
    }
    if CanReturn(t, f, env, x) {
      var fuel: nat, a :| Returns(fuel, t, f, env, a) && x in a;
      SummariesAreSound(t, r, fuel, f, env, a);
    }
  }

  // ----- where the summary is known -----

  /** A lambda that calls no parameter, or a global that is known. */
  predicate CallsNoParam(t: Table, d: RetFn, e: RetExpr) {
    match e
    case Lambda(params, calls, _) => forall n | n in calls :: n !in params && !IsFnParam(d, n)
    case Name(n) => !IsFnParam(d, n) && n in t.globals && t.globals[n].Known?
    case CallOf(_, _) => false
  }

  lemma {:induction false} NoneOwn(params: seq<string>, calls: seq<string>)
    requires forall n | n in calls :: n !in params
    ensures OwnCalls(params, calls) == []
    decreases |calls|
  {
    if calls != [] {
      assert calls[0] in calls && forall n | n in calls[1..] :: n in calls;
      NoneOwn(params, calls[1..]);
    }
  }

  lemma {:induction false} SomeOwn(params: seq<string>, calls: seq<string>)
    requires exists n | n in calls :: n in params
    ensures OwnCalls(params, calls) != []
    decreases |calls|
  {
    if calls[0] !in params {
      SomeOwn(params, calls[1..]);
    }
  }

  lemma {:induction false} NoneCaptured(d: RetFn, params: seq<string>, calls: seq<string>)
    requires forall n | n in calls :: n !in params ==> !IsFnParam(d, n)
    ensures Captured(d, params, calls) == []
    decreases |calls|
  {
    if calls != [] {
      assert calls[0] in calls && forall n | n in calls[1..] :: n in calls;
      NoneCaptured(d, params, calls[1..]);
    }
  }

  /** If every return is a lambda that calls no parameter or a global that is known, the summary is
      known, and it is exactly what the returned closures carry. */
  lemma PlainReturnsExactly(t: Table, r: Summaries, f: string, env: Env, x: Capability)
    requires IsFixedPoint(t, r) && f in t.fns && t.fns[f].exits != []
    requires forall k | 0 <= k < |t.fns[f].exits| :: CallsNoParam(t, t.fns[f], t.fns[f].exits[k])
    ensures Summary(r, f).Known?
    ensures x in Summary(r, f).caps <==> exists a :: Returns(0, t, f, env, a) && x in a
  {
    var d := t.fns[f];
    MergeOfKnown(t, r, d, d.exits);
    forall k | 0 <= k < |d.exits|
      ensures Resolve(t, r, d, d.exits[k]).Known?
      ensures Yields(0, t, d, env, d.exits[k], Resolve(t, r, d, d.exits[k]).caps)
      ensures forall a | Yields(0, t, d, env, d.exits[k], a) :: a <= Resolve(t, r, d, d.exits[k]).caps
    {
      PlainReturnIsKnown(t, r, d, env, d.exits[k]);
    }
    hide Resolve, MergeReturns, Yields, CallsNoParam;
    if x in Summary(r, f).caps {
      var k :| 0 <= k < |d.exits| && x in Resolve(t, r, d, d.exits[k]).caps;
      assert Returns(0, t, f, env, Resolve(t, r, d, d.exits[k]).caps);
    }
    if a :| Returns(0, t, f, env, a) && x in a {
      var k :| 0 <= k < |d.exits| && Yields(0, t, d, env, d.exits[k], a);
      assert x in Resolve(t, r, d, d.exits[k]).caps;
    }
  }

  lemma PlainReturnIsKnown(t: Table, r: Summaries, d: RetFn, env: Env, e: RetExpr)
    requires CallsNoParam(t, d, e)
    ensures Resolve(t, r, d, e).Known? && Yields(0, t, d, env, e, Resolve(t, r, d, e).caps)
    ensures forall a | Yields(0, t, d, env, e, a) :: a <= Resolve(t, r, d, e).caps
  {
    if e.Lambda? {
      NoneOwn(e.params, e.calls);
      NoneCaptured(d, e.params, e.calls);
    }
  }

  /** Function `g` returns its parameter `i`, or a lambda that does nothing but call it. */
  predicate Hands(t: Table, g: string, i: nat) {
    && g in t.fns && t.fns[g].exits != [] && i < |t.fns[g].params| && t.fns[g].params[i].fnTyped
    && forall k | 0 <= k < |t.fns[g].exits| :: HandsOver(t.fns[g], t.fns[g].exits[k], t.fns[g].params[i].name)
  }

  predicate HandsOver(d: RetFn, e: RetExpr, p: string) {
    match e
    case Name(n) => n == p
    case Lambda(params, calls, needs) =>
      && needs == {} && p in calls
      && forall n | n in calls :: n !in params && (IsFnParam(d, n) ==> n == p)
    case CallOf(_, _) => false
  }

  /** Within `n` nested calls nothing stands in the way of a known set: calls of functions that
      are known themselves, or that hand over an argument that is. */
  ghost predicate NothingHides(n: nat, t: Table, d: RetFn, e: RetExpr)
    decreases n, e
  {
    match e
    case Lambda(params, calls, needs) =>
      CallsNoParam(t, d, e) || (needs != {} && exists m | m in calls :: m in params)
    case Name(_) => CallsNoParam(t, d, e)
    case CallOf(g, args) =>
      || (n > 0 && AllKnown(n - 1, t, g))
      || (exists i | 0 <= i < |args| :: Hands(t, g, i) && NothingHides(n, t, d, args[i]))
  }

  ghost predicate AllKnown(n: nat, t: Table, g: string)
    decreases n
  {
    && g in t.fns && t.fns[g].exits != []
    && forall k | 0 <= k < |t.fns[g].exits| :: NothingHides(n, t, t.fns[g], t.fns[g].exits[k])
  }

  lemma HandsIsDeferred(t: Table, r: Summaries, g: string, i: nat)
    requires IsFixedPoint(t, r) && Hands(t, g, i)
    ensures Summary(r, g) == DependsOnParam(t.fns[g].params[i].name)
  {
    var d, p := t.fns[g], t.fns[g].params[i].name;
    assert IsFnParam(d, p);
    forall k | 0 <= k < |d.exits|
      ensures Resolve(t, r, d, d.exits[k]) == DependsOnParam(p)
    {
      HandsOverIsDeferred(t, r, d, d.exits[k], p);
    }
    MergeOfDeferred(t, r, d, d.exits, p);
  }

  lemma HandsOverIsDeferred(t: Table, r: Summaries, d: RetFn, e: RetExpr, p: string)
    requires HandsOver(d, e, p) && IsFnParam(d, p)
    ensures Resolve(t, r, d, e) == DependsOnParam(p)
  {
    if e.Lambda? {
      NoneOwn(e.params, e.calls);
      CapturedHas(d, e.params, e.calls, p);
      var captured := Captured(d, e.params, e.calls);
      assert captured[0] in captured;
    }
  }

  lemma {:induction false} CapturedHas(d: RetFn, params: seq<string>, calls: seq<string>, p: string)
    requires p in calls && p !in params && IsFnParam(d, p)
    ensures p in Captured(d, params, calls)
    decreases |calls|
  {
    if calls[0] != p {
      CapturedHas(d, params, calls[1..], p);
    }
  }

  lemma {:induction false} NothingHidesIsKnown(n: nat, t: Table, r: Summaries, d: RetFn, e: RetExpr)
    requires t.WellFormed() && IsFixedPoint(t, r) && NothingHides(n, t, d, e)
    ensures Resolve(t, r, d, e).Known?
    decreases n, e
  {
    match e
    case Lambda(params, calls, _) =>
      if CallsNoParam(t, d, e) {
        NoneOwn(params, calls);
        NoneCaptured(d, params, calls);
      } else {
        SomeOwn(params, calls);
      }
    case Name(_) =>
    case CallOf(g, args) =>
      if n > 0 && AllKnown(n - 1, t, g) {
        AllKnownIsKnown(n - 1, t, r, g);
      } else {
        var i :| 0 <= i < |args| && Hands(t, g, i) && NothingHides(n, t, d, args[i]);
        HandsIsDeferred(t, r, g, i);
        NothingHidesIsKnown(n, t, r, d, args[i]);
        assert ParamIndex(t.fns[g].params, t.fns[g].params[i].name) == i;
      }
  }

  /** So the summary of a function is known if nothing hides what it returns. */
  lemma {:induction false} AllKnownIsKnown(n: nat, t: Table, r: Summaries, g: string)
    requires t.WellFormed() && IsFixedPoint(t, r) && AllKnown(n, t, g)
    ensures Summary(r, g).Known?
    decreases n
  {
    var d := t.fns[g];
    hide NothingHides, Resolve;
    forall k | 0 <= k < |d.exits|
      ensures Resolve(t, r, d, d.exits[k]).Known?
    {
      NothingHidesIsKnown(n, t, r, d, d.exits[k]);
    }
    MergeOfKnown(t, r, d, d.exits);
  }
}
