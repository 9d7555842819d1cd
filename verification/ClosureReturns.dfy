/** Summaries of the closures functions return (checker.rs `compute_fn_return_closure_caps`,
    `resolve_closure_caps`, `merge_closure_caps`): the loop descends from "unknown" to the
    greatest fixed point, and the summaries cover every closure returned at run time exactly
    when each returned lambda is one the classification handles. */
module ClosureReturns {
  import opened Capabilities
  import opened Language
  import opened Inference
  import opened Sets

  // ----- returned expressions -----

  /** `calls` are the bare names a lambda's body calls that are its own or an enclosing
      parameter; `needs` is the capability requirement of everything else in the body. */
  datatype RetExpr =
    | Lambda(params: seq<string>, calls: seq<string>, needs: CapSet)
    | Name(name: string)
    | CallOf(fn: string, args: seq<RetExpr>)

  datatype RetFn = RetFn(params: seq<Param>, exits: seq<RetExpr>)

  /** `globals` is the resolution of a named function or builtin used as a value. */
  datatype Table = Table(fns: map<string, RetFn>, globals: map<string, ClosureCaps>)
  {
    ghost predicate WellFormed() {
      forall f | f in fns :: DistinctNames(fns[f].params)
    }
  }

  predicate DistinctNames(params: seq<Param>) {
    forall i, j | 0 <= i < j < |params| :: params[i].name != params[j].name
  }

  predicate IsFnParam(d: RetFn, n: string) {
    exists i | 0 <= i < |d.params| :: d.params[i] == Param(n, true)
  }

  predicate IsParam(d: RetFn, n: string) {
    exists i | 0 <= i < |d.params| :: d.params[i].name == n
  }

  /** The called names of a lambda that are its own parameters, in the order met. */
  function OwnCalls(params: seq<string>, calls: seq<string>): seq<string> {
    if calls == [] then []
    else (if calls[0] in params then [calls[0]] else []) + OwnCalls(params, calls[1..])
  }

  /** The called names that are captured parameters of the enclosing function. */
  function Captured(d: RetFn, params: seq<string>, calls: seq<string>): (r: seq<string>)
    ensures forall n | n in r :: n in calls && n !in params && IsFnParam(d, n)
  {
    if calls == [] then []
    else (if calls[0] !in params && IsFnParam(d, calls[0]) then [calls[0]] else []) + Captured(d, params, calls[1..])
  }

  // ----- resolution and merging -----

  type Summaries = map<string, ClosureCaps>

  /** A function not summarised yet is unknown. */
  function Summary(r: Summaries, f: string): ClosureCaps {
    if f in r then r[f] else Unknown
  }

  function Resolve(t: Table, r: Summaries, d: RetFn, e: RetExpr): ClosureCaps {
    match e
    case Lambda(params, calls, needs) =>
      var own := OwnCalls(params, calls);
      var captured := Captured(d, params, calls);
      if own != [] then (if needs == {} then DependsOnParam(own[0]) else Known(needs))
      else if captured != [] then (if needs == {} then DependsOnParam(captured[0]) else Unknown)
      else Known(needs)
    case Name(n) =>
      if IsFnParam(d, n) then DependsOnParam(n)
      else if n in t.globals then t.globals[n]
      else Unknown
    case CallOf(g, args) =>
      if g !in t.fns then Unknown
      else
        match Summary(r, g)
        case Known(c) => Known(c)
        case Unknown => Unknown
        case DependsOnParam(p) =>
          var i := ParamIndex(t.fns[g].params, p);
          if i < |t.fns[g].params| && i < |args| then Resolve(t, r, d, args[i]) else Unknown
  }

  function Merge(a: ClosureCaps, b: ClosureCaps): ClosureCaps {
    match (a, b)
    case (Known(x), Known(y)) => Known(x + y)
    case (DependsOnParam(x), DependsOnParam(y)) => if x == y then DependsOnParam(x) else Unknown
    case _ => Unknown
  }

  /** All return positions of a function, merged from the left. */
  function MergeReturns(t: Table, r: Summaries, d: RetFn, exits: seq<RetExpr>): ClosureCaps
    requires exits != []
  {
    var last := Resolve(t, r, d, exits[|exits| - 1]);
    if |exits| == 1 then last else Merge(MergeReturns(t, r, d, exits[..|exits| - 1]), last)
  }

  // ----- the order: unknown on top -----

  predicate AtMost(a: ClosureCaps, b: ClosureCaps) {
    match (a, b)
    case (_, Unknown) => true
    case (Known(x), Known(y)) => x <= y
    case _ => a == b
  }

  ghost predicate AllAtMost(r: Summaries, s: Summaries) {
    forall f :: AtMost(Summary(r, f), Summary(s, f))
  }

  lemma {:induction false} ResolveIsMonotone(t: Table, r: Summaries, s: Summaries, d: RetFn, e: RetExpr)
    requires AllAtMost(r, s)
    ensures AtMost(Resolve(t, r, d, e), Resolve(t, s, d, e))
    decreases e
  {
    if e.CallOf? && e.fn in t.fns {
      assert AtMost(Summary(r, e.fn), Summary(s, e.fn));
      if Summary(r, e.fn).DependsOnParam? {
        var i := ParamIndex(t.fns[e.fn].params, Summary(r, e.fn).name);
        if i < |e.args| {
          ResolveIsMonotone(t, r, s, d, e.args[i]);
        }
      }
    }
  }

  lemma {:induction false} MergeReturnsIsMonotone(t: Table, r: Summaries, s: Summaries, d: RetFn, exits: seq<RetExpr>)
    requires AllAtMost(r, s) && exits != []
    ensures AtMost(MergeReturns(t, r, d, exits), MergeReturns(t, s, d, exits))
    decreases |exits|
  {
    ResolveIsMonotone(t, r, s, d, exits[|exits| - 1]);
    if |exits| > 1 {
      MergeReturnsIsMonotone(t, r, s, d, exits[..|exits| - 1]);
    }
  }

  // ----- the computation -----

  ghost predicate IsFixedPoint(t: Table, r: Summaries) {
    forall f | f in t.fns && t.fns[f].exits != [] ::
      Summary(r, f) == MergeReturns(t, r, t.fns[f], t.fns[f].exits)
  }

  /** Recomputing a summary can only lower it. */
  ghost predicate Descending(t: Table, r: Summaries) {
    forall f | f in t.fns && t.fns[f].exits != [] ::
      AtMost(MergeReturns(t, r, t.fns[f], t.fns[f].exits), Summary(r, f))
  }

  /** Functions with no return position are never summarised. */
  ghost predicate OnlyReturning(t: Table, r: Summaries) {
    forall f | f in r :: f in t.fns && t.fns[f].exits != []
  }

  /** `r` is the fixed point above every other. */
  ghost predicate IsGreatest(t: Table, r: Summaries) {
    && IsFixedPoint(t, r) && OnlyReturning(t, r)
    && AboveFixedPoints(t, r)
  }

  ghost predicate AboveFixedPoints(t: Table, r: Summaries) {
    forall s: Summaries | IsFixedPoint(t, s) && OnlyReturning(t, s) :: AllAtMost(s, r)
  }

  function Rank(r: Summaries, f: string): nat {
    if f !in r then 18
    else match r[f]
      case Unknown => 17
      case Known(c) => |c| + 1
      case DependsOnParam(_) => 0
  }

  function TotalRank(r: Summaries, order: seq<string>): nat {
    if order == [] then 0 else Rank(r, order[0]) + TotalRank(r, order[1..])
  }

  lemma CapSetIsSmall(c: CapSet)
    ensures |c| <= 15
  {
    var every := {Net, NetHttp, NetTcp, Io, FsRead, FsWrite, Ffi, Compute, Crypto, Process, Env, Term, Db, Time, All};
    forall x | x in c
      ensures x in every
    {
      match x
      case Net => case NetHttp => case NetTcp => case Io => case FsRead => case FsWrite => case Ffi =>
      case Compute => case Crypto => case Process => case Env => case Term => case Db => case Time => case All =>
    }
    SubsetSize(c, every);
    assert |every| <= 15;
  }

  lemma RankDrops(r: Summaries, f: string, c: ClosureCaps)
    requires AtMost(c, Summary(r, f)) && (f in r ==> r[f] != c)
    ensures Rank(r[f := c], f) < Rank(r, f)
  {
    if c.Known? {
      CapSetIsSmall(c.caps);
      if f in r && r[f].Known? {
        SubsetSize(c.caps, r[f].caps);
      }
    }
  }

  lemma {:induction false} TotalRankDrops(r: Summaries, order: seq<string>, f: string, c: ClosureCaps)
    requires Rank(r[f := c], f) < Rank(r, f)
    ensures TotalRank(r[f := c], order) <= TotalRank(r, order)
    ensures f in order ==> TotalRank(r[f := c], order) < TotalRank(r, order)
    decreases |order|
  {
    if order != [] {
      TotalRankDrops(r, order[1..], f, c);
    }
  }

  lemma UpdateDescends(t: Table, r: Summaries, f: string)
    requires Descending(t, r) && f in t.fns && t.fns[f].exits != []
    ensures var r' := r[f := MergeReturns(t, r, t.fns[f], t.fns[f].exits)]; AllAtMost(r', r) && Descending(t, r')
  {
    var r' := r[f := MergeReturns(t, r, t.fns[f], t.fns[f].exits)];
    forall g
      ensures AtMost(Summary(r', g), Summary(r, g))
    {
    }
    forall g | g in t.fns && t.fns[g].exits != []
      ensures AtMost(MergeReturns(t, r', t.fns[g], t.fns[g].exits), Summary(r', g))
    {
      MergeReturnsIsMonotone(t, r', r, t.fns[g], t.fns[g].exits);
      AtMostTransitive(MergeReturns(t, r', t.fns[g], t.fns[g].exits), MergeReturns(t, r, t.fns[g], t.fns[g].exits),
                       Summary(r, g));
    }
  }

  lemma AtMostTransitive(a: ClosureCaps, b: ClosureCaps, c: ClosureCaps)
    requires AtMost(a, b) && AtMost(b, c)
    ensures AtMost(a, c)
  {
  }

  lemma UpdateStaysAbove(t: Table, r: Summaries, f: string, s: Summaries)
    requires AllAtMost(s, r) && IsFixedPoint(t, s) && f in t.fns && t.fns[f].exits != []
    ensures AllAtMost(s, r[f := MergeReturns(t, r, t.fns[f], t.fns[f].exits)])
  {
    MergeReturnsIsMonotone(t, s, r, t.fns[f], t.fns[f].exits);
    var r' := r[f := MergeReturns(t, r, t.fns[f], t.fns[f].exits)];
    forall g
      ensures AtMost(Summary(s, g), Summary(r', g))
    {
      assert AtMost(Summary(s, g), Summary(r, g));
    }
  }

  lemma UpdateStaysAboveAll(t: Table, r: Summaries, f: string)
    requires AboveFixedPoints(t, r) && f in t.fns && t.fns[f].exits != []
    ensures AboveFixedPoints(t, r[f := MergeReturns(t, r, t.fns[f], t.fns[f].exits)])
  {
    forall s: Summaries | IsFixedPoint(t, s) && OnlyReturning(t, s)
      ensures AllAtMost(s, r[f := MergeReturns(t, r, t.fns[f], t.fns[f].exits)])
    {
      UpdateStaysAbove(t, r, f, s);
    }
  }

  /** What every recomputation keeps: the summaries are on their way down to the greatest fixed point. */
  ghost predicate Approaching(t: Table, r: Summaries) {
    Descending(t, r) && OnlyReturning(t, r) && AboveFixedPoints(t, r)
  }

  lemma RecomputeApproaches(t: Table, r: Summaries, order: seq<string>, f: string)
    requires Approaching(t, r) && f in order && f in t.fns && t.fns[f].exits != []
    requires f in r ==> r[f] != MergeReturns(t, r, t.fns[f], t.fns[f].exits)
    ensures var r' := r[f := MergeReturns(t, r, t.fns[f], t.fns[f].exits)];
            Approaching(t, r') && TotalRank(r', order) < TotalRank(r, order)
  {
    hide MergeReturns, AboveFixedPoints, Rank, TotalRank, AtMost;
    var c := MergeReturns(t, r, t.fns[f], t.fns[f].exits);
    RankDrops(r, f, c);
    TotalRankDrops(r, order, f, c);
    UpdateDescends(t, r, f);
    UpdateStaysAboveAll(t, r, f);
  }

  /** The first `k` functions would be summarised as they are. */
  predicate Settled(t: Table, r: Summaries, order: seq<string>, k: nat)
    requires k <= |order| && forall f | f in order :: f in t.fns
  {
    forall m | 0 <= m < k && t.fns[order[m]].exits != [] ::
      Summary(r, order[m]) == MergeReturns(t, r, t.fns[order[m]], t.fns[order[m]].exits)
  }

  lemma SettledOneMore(t: Table, r: Summaries, order: seq<string>, k: nat)
    requires k < |order| && forall f | f in order :: f in t.fns
    requires Settled(t, r, order, k)
    requires var d := t.fns[order[k]]; d.exits != [] ==> Summary(r, order[k]) == MergeReturns(t, r, d, d.exits)
    ensures Settled(t, r, order, k + 1)
  {
    hide MergeReturns;
  }

  lemma SettledIsGreatest(t: Table, r: Summaries, order: seq<string>)
    requires forall f :: f in order <==> f in t.fns
    requires Approaching(t, r) && Settled(t, r, order, |order|)
    ensures IsGreatest(t, r)
  {
    hide MergeReturns, AboveFixedPoints;
    forall f | f in t.fns && t.fns[f].exits != []
      ensures Summary(r, f) == MergeReturns(t, r, t.fns[f], t.fns[f].exits)
    {
      var m :| 0 <= m < |order| && order[m] == f;
    }
  }

  /** The loop terminates: summaries only descend from unknown. What it exits does not
      depend on the order of the declarations. */
  method ComputeReturnSummaries(t: Table, order: seq<string>) returns (result: Summaries)
    requires forall f :: f in order <==> f in t.fns
    ensures IsGreatest(t, result)
  {
    result := map[];
    assert Approaching(t, map[]);
    assert Settled(t, map[], order, 0);
    hide MergeReturns, Approaching, TotalRank, Settled;
    var changed := true;
    while changed
      invariant Approaching(t, result)
      invariant !changed ==> Settled(t, result, order, |order|)
      decreases TotalRank(result, order), changed
    {
      changed := false;
      ghost var before := result;
      for k := 0 to |order|
        invariant Approaching(t, result)
        invariant if changed then TotalRank(result, order) < TotalRank(before, order) else result == before
        invariant !changed ==> Settled(t, result, order, k)
      {
        var name := order[k];
        var d := t.fns[name];
        if d.exits != [] {
          var combined := CombineReturns(t, result, d);
          if !(name in result && result[name] == combined) {
            RecomputeApproaches(t, result, order, name);
            result := result[name := combined];
            changed := true;
          }
        }
        if !changed {
          SettledOneMore(t, result, order, k);
        }
      }
    }
    SettledIsGreatest(t, result, order);
  }

  /** The fold over the return positions. */
  method CombineReturns(t: Table, r: Summaries, d: RetFn) returns (combined: ClosureCaps)
    requires d.exits != []
    ensures combined == MergeReturns(t, r, d, d.exits)
  {
    combined := Resolve(t, r, d, d.exits[0]);
    assert d.exits[..1] == [d.exits[0]];
    for k := 1 to |d.exits|
      invariant combined == MergeReturns(t, r, d, d.exits[..k])
    {
      combined := Merge(combined, Resolve(t, r, d, d.exits[k]));
      assert d.exits[..k + 1][..k] == d.exits[..k];
    }
    assert d.exits[..|d.exits|] == d.exits;
  }

  // ----- what functions return at run time -----

  /** The authority of the values bound to fn-typed parameters. */
  type Env = map<string, CapSet>

  predicate Binds(d: RetFn, env: Env) {
    forall i | 0 <= i < |d.params| && d.params[i].fnTyped :: d.params[i].name in env
  }

  function Authority(env: Env, names: seq<string>): CapSet {
    if names == [] then {}
    else (if names[0] in env then env[names[0]] else {}) + Authority(env, names[1..])
  }

  /** Within `fuel` nested calls, `e` can evaluate in `d` to a closure of authority `a`:
      what invoking it may use, beyond what the invoker passes in. A global carries at most
      its resolution; anything may come from an expression that has none. */
  ghost predicate Yields(fuel: nat, t: Table, d: RetFn, env: Env, e: RetExpr, a: CapSet)
    decreases fuel, e
  {
    match e
    case Lambda(params, calls, needs) => a == needs + Authority(env, Captured(d, params, calls))
    case Name(n) =>
      if IsFnParam(d, n) then n in env && a == env[n]
      else n in t.globals && t.globals[n].Known? ==> a <= t.globals[n].caps
    case CallOf(g, args) =>
      && fuel > 0 && g in t.fns
      && exists inner: Env ::
           && Binds(t.fns[g], inner)
           && (forall i | 0 <= i < |args| && i < |t.fns[g].params| && t.fns[g].params[i].fnTyped ::
                 Yields(fuel, t, d, env, args[i], inner[t.fns[g].params[i].name]))
           && Returns(fuel - 1, t, g, inner, a)
  }

  ghost predicate Returns(fuel: nat, t: Table, f: string, env: Env, a: CapSet)
    requires f in t.fns
    decreases fuel
  {
    exists k | 0 <= k < |t.fns[f].exits| :: Yields(fuel, t, t.fns[f], env, t.fns[f].exits[k], a)
  }

  /** A summary covers a closure. A name that is no parameter is unknown to every caller. */
  predicate Covers(d: RetFn, env: Env, c: ClosureCaps, a: CapSet) {
    match c
    case Known(s) => a <= s
    case Unknown => true
    case DependsOnParam(p) =>
      if IsFnParam(d, p) then p in env && a <= env[p]
      else IsParam(d, p) ==> a == {}
  }

  // ----- which lambdas the classification handles -----

  /** A lambda that calls its own parameter hides its captures, and one that only forwards
      captures is summarised by the first of them. */
  ghost predicate Tame(d: RetFn, e: RetExpr)
    requires e.Lambda?
  {
    var own := OwnCalls(e.params, e.calls);
    var captured := Captured(d, e.params, e.calls);
    if own != [] then
      || captured == []
      || (e.needs == {} && !IsParam(d, own[0]))
      || forall c: Capability :: c in e.needs
    else
      e.needs == {} ==> forall n | n in captured :: n == captured[0]
  }

  ghost predicate AllTame(d: RetFn, e: RetExpr)
    decreases e
  {
    match e
    case Lambda(_, _, _) => Tame(d, e)
    case Name(n) => true
    case CallOf(_, args) => forall i | 0 <= i < |args| :: AllTame(d, args[i])
  }

  ghost predicate TameTable(t: Table) {
    && (forall f, k | f in t.fns && 0 <= k < |t.fns[f].exits| :: AllTame(t.fns[f], t.fns[f].exits[k]))
    && (forall n | n in t.globals :: !t.globals[n].DependsOnParam?)
  }

  lemma {:induction false} AuthorityOfMember(env: Env, names: seq<string>, n: string)
    requires n in names && n in env
    ensures env[n] <= Authority(env, names)
    decreases |names|
  {
    if names[0] != n {
      assert n in names[1..];
      AuthorityOfMember(env, names[1..], n);
    }
  }

  lemma {:induction false} AuthorityOfOne(env: Env, names: seq<string>, n: string)
    requires n in env && forall m | m in names :: m == n
    ensures Authority(env, names) <= env[n]
    decreases |names|
  {
    if names != [] {
      assert names[0] in names && forall m | m in names[1..] :: m in names;
      AuthorityOfOne(env, names[1..], n);
    }
  }

  lemma OwnCallsAreOwn(params: seq<string>, calls: seq<string>)
    ensures forall n | n in OwnCalls(params, calls) :: n in params
  {
  }

  lemma TameLambdaIsCovered(t: Table, r: Summaries, d: RetFn, env: Env, e: RetExpr)
    requires e.Lambda? && Tame(d, e) && Binds(d, env)
    ensures Covers(d, env, Resolve(t, r, d, e), e.needs + Authority(env, Captured(d, e.params, e.calls)))
  {
    var own := OwnCalls(e.params, e.calls);
    var captured := Captured(d, e.params, e.calls);
    OwnCallsAreOwn(e.params, e.calls);
    if own != [] {
      assert own[0] in own;
    } else if captured != [] && e.needs == {} {
      assert captured[0] in captured;
      AuthorityOfOne(env, captured, captured[0]);
    }
  }

  /** The environment in which only `n` carries anything. */
  function Spotlight(d: RetFn, n: string, x: Capability): Env {
    var names := set i | 0 <= i < |d.params| && d.params[i].fnTyped :: d.params[i].name;
    map m | m in names :: if m == n then {x} else {}
  }

  lemma SpotlightBinds(d: RetFn, n: string, x: Capability)
    ensures Binds(d, Spotlight(d, n, x))
    ensures IsFnParam(d, n) ==> n in Spotlight(d, n, x) && Spotlight(d, n, x)[n] == {x}
  {
  }

  /** A lambda that calls its own parameter and captures another hides the capture. */
  lemma HiddenCaptureEscapes(t: Table, r: Summaries, d: RetFn, e: RetExpr) returns (env: Env)
    requires e.Lambda? && !Tame(d, e) && OwnCalls(e.params, e.calls) != []
    ensures Binds(d, env)
    ensures !Covers(d, env, Resolve(t, r, d, e), e.needs + Authority(env, Captured(d, e.params, e.calls)))
  {
    var own := OwnCalls(e.params, e.calls);
    var captured := Captured(d, e.params, e.calls);
    OwnCallsAreOwn(e.params, e.calls);
    assert own[0] in own && captured[0] in captured;
    var x: Capability :| x !in e.needs;
    env := Spotlight(d, captured[0], x);
    SpotlightBinds(d, captured[0], x);
    AuthorityOfMember(env, captured, captured[0]);
    assert x in e.needs + Authority(env, captured);
  }

  /** A lambda that calls two captured parameters is charged for one of them. */
  lemma SecondCaptureEscapes(t: Table, r: Summaries, d: RetFn, e: RetExpr) returns (env: Env)
    requires e.Lambda? && !Tame(d, e) && OwnCalls(e.params, e.calls) == []
    ensures Binds(d, env)
    ensures !Covers(d, env, Resolve(t, r, d, e), e.needs + Authority(env, Captured(d, e.params, e.calls)))
  {
    var captured := Captured(d, e.params, e.calls);
    var n :| n in captured && n != captured[0];
    assert captured[0] in captured;
    env := Spotlight(d, n, Net);
    SpotlightBinds(d, n, Net);
    AuthorityOfMember(env, captured, n);
    NotCovered(d, env, captured[0], n, e.needs + Authority(env, captured));
  }

  lemma NotCovered(d: RetFn, env: Env, p: string, n: string, a: CapSet)
    requires env == Spotlight(d, n, Net) && p != n && IsFnParam(d, p) && Net in a
    ensures !Covers(d, env, DependsOnParam(p), a)
  {
  }

  /** Exactly the tame lambdas are covered by their classification, whatever the arguments. */
  lemma TameExactly(t: Table, r: Summaries, d: RetFn, e: RetExpr)
    requires e.Lambda?
    ensures Tame(d, e) <==>
              forall env: Env | Binds(d, env) ::
                Covers(d, env, Resolve(t, r, d, e), e.needs + Authority(env, Captured(d, e.params, e.calls)))
  {
    if Tame(d, e) {
      forall env: Env | Binds(d, env)
        ensures Covers(d, env, Resolve(t, r, d, e), e.needs + Authority(env, Captured(d, e.params, e.calls)))
      {
        TameLambdaIsCovered(t, r, d, env, e);
      }
    } else {
      if OwnCalls(e.params, e.calls) != [] {
        var env := HiddenCaptureEscapes(t, r, d, e);
      } else {
        var env := SecondCaptureEscapes(t, r, d, e);
      }
    }
  }

  // ----- soundness -----

  /** Summaries are sound for everything returned within `fuel` calls. */
  ghost predicate SoundWithin(fuel: nat, t: Table, r: Summaries) {
    forall f, env: Env, a | f in t.fns && Binds(t.fns[f], env) && Returns(fuel, t, f, env, a) ::
      Covers(t.fns[f], env, Summary(r, f), a)
  }

  /** What a caller learns from a deferred summary: the argument's resolution. */
  lemma CoversThroughCall(callee: RetFn, inner: Env, p: string, d: RetFn, env: Env, arg: ClosureCaps,
                          argAuthority: CapSet, a: CapSet)
    requires Covers(callee, inner, DependsOnParam(p), a) && DistinctNames(callee.params)
    requires IsParam(callee, p)
    requires IsFnParam(callee, p) ==> p in inner && inner[p] == argAuthority && Covers(d, env, arg, argAuthority)
    requires arg.DependsOnParam? && IsFnParam(d, arg.name) ==> arg.name in env
    ensures Covers(d, env, arg, a)
  {
  }

  lemma NameIsSound(fuel: nat, t: Table, r: Summaries, d: RetFn, env: Env, n: string, a: CapSet)
    requires TameTable(t) && Binds(d, env) && Yields(fuel, t, d, env, Name(n), a)
    ensures Covers(d, env, Resolve(t, r, d, Name(n)), a)
  {
  }

  lemma {:induction false} ResolveIsSound(fuel: nat, t: Table, r: Summaries, d: RetFn, env: Env, e: RetExpr, a: CapSet)
    requires t.WellFormed() && TameTable(t) && AllTame(d, e) && Binds(d, env)
    requires fuel > 0 ==> SoundWithin(fuel - 1, t, r)
    requires Yields(fuel, t, d, env, e, a)
    ensures Covers(d, env, Resolve(t, r, d, e), a)
    decreases e
  {
    hide TameTable, Authority, Captured, Merge;
    match e
    case Lambda(_, _, _) => TameLambdaIsCovered(t, r, d, env, e);
    case Name(n) => NameIsSound(fuel, t, r, d, env, n, a);
    case CallOf(g, args) =>
      var callee := t.fns[g];
      var inner: Env :| Binds(callee, inner)
        && (forall i | 0 <= i < |args| && i < |callee.params| && callee.params[i].fnTyped ::
              Yields(fuel, t, d, env, args[i], inner[callee.params[i].name]))
        && Returns(fuel - 1, t, g, inner, a);
      var s := Summary(r, g);
      assert Covers(callee, inner, s, a);
      if s.DependsOnParam? {
        var i := ParamIndex(callee.params, s.name);
        if i < |callee.params| && i < |args| {
          if callee.params[i].fnTyped {
            ResolveIsSound(fuel, t, r, d, env, args[i], inner[callee.params[i].name]);
            assert callee.params[i] == Param(s.name, true);
          }
          DeferredNameIsBound(d, env, Resolve(t, r, d, args[i]));
          CoversThroughCall(callee, inner, s.name, d, env, Resolve(t, r, d, args[i]),
                            if callee.params[i].fnTyped then inner[callee.params[i].name] else {}, a);
        }
      }
  }

  lemma DeferredNameIsBound(d: RetFn, env: Env, c: ClosureCaps)
    requires Binds(d, env)
    ensures c.DependsOnParam? && IsFnParam(d, c.name) ==> c.name in env
  {
  }

  lemma MergeCovers(d: RetFn, env: Env, x: ClosureCaps, y: ClosureCaps, a: CapSet)
    requires Covers(d, env, x, a) || Covers(d, env, y, a)
    ensures Covers(d, env, Merge(x, y), a)
  {
  }

  lemma {:induction false} MergeReturnsCovers(t: Table, r: Summaries, d: RetFn, env: Env, exits: seq<RetExpr>, k: nat,
                                              a: CapSet)
    requires k < |exits| && Covers(d, env, Resolve(t, r, d, exits[k]), a)
    ensures Covers(d, env, MergeReturns(t, r, d, exits), a)
    decreases |exits|
  {
    if |exits| > 1 {
      if k < |exits| - 1 {
        assert exits[..|exits| - 1][k] == exits[k];
        MergeReturnsCovers(t, r, d, env, exits[..|exits| - 1], k, a);
      }
      MergeCovers(d, env, MergeReturns(t, r, d, exits[..|exits| - 1]), Resolve(t, r, d, exits[|exits| - 1]), a);
    }
  }

  lemma ReturnIsCovered(fuel: nat, t: Table, r: Summaries, f: string, env: Env, a: CapSet)
    requires t.WellFormed() && TameTable(t) && IsFixedPoint(t, r)
    requires fuel > 0 ==> SoundWithin(fuel - 1, t, r)
    requires f in t.fns && Binds(t.fns[f], env) && Returns(fuel, t, f, env, a)
    ensures Covers(t.fns[f], env, Summary(r, f), a)
  {
    hide Yields, Covers, Resolve, MergeReturns, Binds, AllTame, SoundWithin, Summary;
    var d := t.fns[f];
    var k :| 0 <= k < |d.exits| && Yields(fuel, t, d, env, d.exits[k], a);
    ResolveIsSound(fuel, t, r, d, env, d.exits[k], a);
    MergeReturnsCovers(t, r, d, env, d.exits, k, a);
  }

  lemma {:induction false} FixedPointIsSound(fuel: nat, t: Table, r: Summaries)
    requires t.WellFormed() && TameTable(t) && IsFixedPoint(t, r)
    ensures SoundWithin(fuel, t, r)
  {
    hide Covers, Returns, Binds, IsFixedPoint, TameTable, Summary;
    if fuel > 0 {
      FixedPointIsSound(fuel - 1, t, r);
    }
    forall f, env: Env, a | f in t.fns && Binds(t.fns[f], env) && Returns(fuel, t, f, env, a)
      ensures Covers(t.fns[f], env, Summary(r, f), a)
    {
      ReturnIsCovered(fuel, t, r, f, env, a);
    }
  }

  /** Every closure any function returns, after any number of nested calls, is covered by the
      computed summary: a known set contains its authority, a deferred one bounds it by the
      authority of the argument for that parameter. */
  lemma SummariesAreSound(t: Table, r: Summaries, fuel: nat, f: string, env: Env, a: CapSet)
    requires t.WellFormed() && TameTable(t) && IsGreatest(t, r)
    requires f in t.fns && Binds(t.fns[f], env) && Returns(fuel, t, f, env, a)
    ensures Covers(t.fns[f], env, Summary(r, f), a)
  {
    FixedPointIsSound(fuel, t, r);
  }
}
