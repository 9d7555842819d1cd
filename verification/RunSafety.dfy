/** A step machine whose call stack carries the active `deny!` sets, and whole-run safety:
    in every state a run of an accepted program reaches, a gated operation about to execute is
    granted by `main`'s declaration and overlaps nothing denied anywhere on the stack. */
module RunSafety {
  import opened Capabilities
  import opened Wrappers
  import opened Language
  import opened HotParams
  import opened Inference
  import opened Enforcement

  // ----- the machine -----

  datatype Value = FnVal(fn: string) | BuiltinVal(name: string) | DataVal

  datatype Item = Run(c: Cmd) | EndDeny(denied: CapSet)

  /** One activation: its function, the values of its parameters, and what is left to run. */
  datatype Frame = Frame(fn: string, env: seq<Value>, cont: seq<Item>)

  /** The innermost activation comes last. */
  type Stack = seq<Frame>

  /** A name means the parameter if there is one, then the free function, then the builtin. */
  function EvalArg(p: Program, d: FnDecl, env: seq<Value>, a: Arg): Value
    requires |env| == |d.params|
  {
    match a
    case Plain => DataVal
    case Ident(n) =>
      var i := ParamIndex(d.params, n);
      if i < |env| then env[i]
      else if p.Defined(n) then FnVal(n)
      else if n in p.gated || n in p.known then BuiltinVal(n)
      else DataVal
  }

  /** Arguments land in fn-typed parameters by position, after the receiver of a method; the
      type checker keeps every other parameter free of function values. */
  function Bind(p: Program, caller: FnDecl, env: seq<Value>, callee: FnDecl, args: seq<Arg>,
                offset: nat): (bound: seq<Value>)
    requires |env| == |caller.params|
    ensures |bound| == |callee.params|
  {
    seq(|callee.params|, i requires 0 <= i < |callee.params| =>
      if callee.params[i].fnTyped && offset <= i && i - offset < |args| then EvalArg(p, caller, env, args[i - offset])
      else DataVal)
  }

  datatype Target = Enter(fn: string, offset: nat) | Gate(cap: Capability) | Ambient | Stuck

  function BuiltinTarget(p: Program, n: string): Target {
    if n in p.gated then Gate(p.gated[n]) else if n in p.known then Ambient else Stuck
  }

  function Dispatch(p: Program, d: FnDecl, env: seq<Value>, c: Cmd): Target
    requires |env| == |d.params| && (c.Call? || c.MethodCall?)
  {
    if c.MethodCall? then
      if c.callee in p.fns && p.fns[c.callee].kind != Free then Enter(c.callee, Offset(p, c.callee, true)) else Stuck
    else
      match EvalArg(p, d, env, Ident(c.callee))
      case FnVal(g) => if p.Defined(g) then Enter(g, 0) else Stuck
      case BuiltinVal(b) => BuiltinTarget(p, b)
      case DataVal => Stuck
  }

  predicate WellShaped(p: Program, f: Frame) {
    f.fn in p.fns && |f.env| == |p.fns[f.fn].params|
  }

  predicate AllShaped(p: Program, s: Stack) {
    forall k | 0 <= k < |s| :: WellShaped(p, s[k])
  }

  /** One step of the innermost activation; conditions may go either way. */
  ghost predicate Step(p: Program, s: Stack, s': Stack) {
    && s != []
    && WellShaped(p, s[|s| - 1])
    && var rest, top := s[..|s| - 1], s[|s| - 1];
    if top.cont == [] then s' == rest
    else
      var tail := top.cont[1..];
      match top.cont[0]
      case EndDeny(_) => s' == rest + [top.(cont := tail)]
      case Run(c) =>
        match c
        case Skip => s' == rest + [top.(cont := tail)]
        case Return => s' == rest + [top.(cont := [])]
        case PathCall(_) => s' == rest + [top.(cont := tail)]
        case Seq(a, b) => s' == rest + [top.(cont := [Run(a), Run(b)] + tail)]
        case If(g, a, b) =>
          || s' == rest + [top.(cont := [Run(g), Run(a)] + tail)]
          || s' == rest + [top.(cont := [Run(g), Run(b)] + tail)]
        case While(g, b) =>
          || s' == rest + [top.(cont := [Run(g)] + tail)]
          || s' == rest + [top.(cont := [Run(g), Run(b), Run(c)] + tail)]
        case Deny(denied, b) => s' == rest + [top.(cont := [Run(b), EndDeny(denied)] + tail)]
        case _ =>
          match Dispatch(p, p.fns[top.fn], top.env, c)
          case Enter(g, offset) =>
            s' == rest + [top.(cont := tail)]
                  + [Frame(g, Bind(p, p.fns[top.fn], top.env, p.fns[g], c.args, offset), [Run(p.fns[g].body)])]
          case Stuck => false
          case _ => s' == rest + [top.(cont := tail)]
  }

  /** The gated operation the next step executes, if it executes one. */
  function Fires(p: Program, s: Stack): Option<Capability> {
    if s == [] || !WellShaped(p, s[|s| - 1]) || s[|s| - 1].cont == [] || s[|s| - 1].cont[0].EndDeny? then None
    else
      var top := s[|s| - 1];
        var c := top.cont[0].c;
      if c.PathCall? then Some(c.cap)
      else if c.Call? || c.MethodCall? then
        match Dispatch(p, p.fns[top.fn], top.env, c)
        case Gate(cap) => Some(cap)
        case _ => None
      else None
  }

  function DeniedIn(cont: seq<Item>): CapSet {
    if cont == [] then {}
    else (if cont[0].EndDeny? then cont[0].denied else {}) + DeniedIn(cont[1..])
  }

  /** Everything denied by a `deny!` block that is open anywhere on the stack. */
  function ActiveDenies(s: Stack): CapSet {
    if s == [] then {} else ActiveDenies(s[..|s| - 1]) + DeniedIn(s[|s| - 1].cont)
  }

  function InitialStack(p: Program): Stack
    requires "main" in p.fns
  {
    [Frame("main", seq(|p.fns["main"].params|, _ => DataVal), [Run(p.fns["main"].body)])]
  }

  ghost predicate IsRun(p: Program, run: seq<Stack>)
    requires "main" in p.fns
  {
    && |run| > 0
    && run[0] == InitialStack(p)
    && (forall k | 0 <= k < |run| - 1 :: Step(p, run[k], run[k + 1]))
  }

  // ----- the invariant -----

  /** A program with the maps its check used. */
  datatype Checked = Checked(p: Program, mode: Mode, hot: set<Position>, w: CapMap)
  {
    /** The walk tracks no locals in a handler: a function-typed parameter of one that is named
        like a free function or a builtin passes for that global. */
    predicate Shadowed(d: FnDecl, n: string) {
      OwnFnParam(d, n) && NamedInEnforcement(p, d, n)
    }

    /** Where something is denied, `c` calls no parameter that passes for a global. */
    predicate CallsOpenly(d: FnDecl, denying: bool, c: Cmd)
      decreases c
    {
      match c
      case Call(n, _) => !(denying && Shadowed(d, n))
      case Seq(a, b) => CallsOpenly(d, denying, a) && CallsOpenly(d, denying, b)
      case If(g, a, b) => CallsOpenly(d, denying, g) && CallsOpenly(d, denying, a) && CallsOpenly(d, denying, b)
      case While(g, b) => CallsOpenly(d, denying, g) && CallsOpenly(d, denying, b)
      case Deny(denied, b) => CallsOpenly(d, denying || denied != {}, b)
      case _ => true
    }

    ghost predicate HandlersCallOpenly() {
      forall n | n in p.fns :: CallsOpenly(p.fns[n], false, p.fns[n].body)
    }

    /** Accepted in a deny-by-default mode. */
    ghost predicate Valid() {
      && p.WellFormed() && "main" in p.fns && mode != Permissive
      && Accepts(p, mode, hot, w)
      && HandlersCallOpenly()
    }

    predicate Granted(c: Capability, denied: CapSet)
      requires "main" in p.fns
    {
      SatisfiesRequired(p.fns["main"].Declared(), c) && Avoids(c, denied)
    }

    /** Whatever `caps` grants is granted under `denied`. */
    predicate Covered(caps: CapSet, denied: CapSet)
      requires "main" in p.fns
    {
      forall c: Capability | SatisfiesRequired(caps, c) :: Granted(c, denied)
    }

    /** Calling `v` is harmless under `denied`. */
    predicate ValueSafe(v: Value, denied: CapSet)
      requires "main" in p.fns
    {
      match v
      case FnVal(g) => Covered(Lookup(w, g), denied) && (HasHotParam(hot, g) ==> Covered({All}, denied))
      case BuiltinVal(b) => b in p.gated ==> Granted(p.gated[b], denied)
      case DataVal => true
    }

    predicate EnvSafe(f: Frame, denied: CapSet)
      requires "main" in p.fns && WellShaped(p, f)
    {
      forall i | 0 <= i < |f.env| ::
        && (!p.fns[f.fn].params[i].fnTyped ==> f.env[i] == DataVal)
        && ((f.fn, i) in hot ==> ValueSafe(f.env[i], denied))
    }

    /** The grant in force in front of `cont`, outermost `deny!` last. */
    function ScopeOf(caps: CapSet, cont: seq<Item>): CapSet {
      if cont == [] then caps
      else if cont[0].EndDeny? then Without(ScopeOf(caps, cont[1..]), cont[0].denied)
      else ScopeOf(caps, cont[1..])
    }

    predicate InDeny(cont: seq<Item>) {
      exists k | 0 <= k < |cont| :: cont[k].EndDeny?
    }

    predicate CallsWithin(c: Cmd, d: FnDecl) {
      forall s | s in Calls(c) :: s in Calls(d.body)
    }

    /** What is left to run was checked at the grant it will run under. */
    predicate ContChecked(d: FnDecl, caps: CapSet, cont: seq<Item>) {
      cont != [] ==>
      && ContChecked(d, caps, cont[1..])
      && (cont[0].Run? ==>
            && CallsWithin(cont[0].c, d)
            && CallsOpenly(d, DeniedIn(cont[1..]) != {}, cont[0].c)
            && NoErrors(BodyDiags(p, hot, w, d, At(ScopeOf(caps, cont[1..]), true, InDeny(cont[1..])), cont[0].c)))
    }

    predicate FrameSafe(f: Frame, below: CapSet)
      requires "main" in p.fns && WellShaped(p, f)
    {
      var caps := Entry(p, mode, w, f.fn).caps;
      Covered(caps, below) && ContChecked(p.fns[f.fn], caps, f.cont) && EnvSafe(f, below)
    }

    predicate StackSafe(s: Stack)
      requires "main" in p.fns
    {
      s != [] ==>
      && StackSafe(s[..|s| - 1])
      && WellShaped(p, s[|s| - 1])
      && FrameSafe(s[|s| - 1], ActiveDenies(s[..|s| - 1]))
    }

    lemma CoveredBySubset(s: CapSet, caps: CapSet, denied: CapSet)
      requires "main" in p.fns && IsSubsetOf(s, caps) && Covered(caps, denied)
      ensures Covered(s, denied)
    {
      forall c: Capability | SatisfiesRequired(s, c)
        ensures Granted(c, denied)
      {
        SubsetTransports(s, caps, c);
      }
    }

    lemma EverythingCovered(caps: CapSet, denied: CapSet, v: Value)
      requires "main" in p.fns && Covered({All}, denied)
      ensures Covered(caps, denied) && ValueSafe(v, denied)
    {
      forall c: Capability
        ensures Granted(c, denied)
      {
        assert All.Satisfies(c) && SatisfiesRequired({All}, c);
      }
    }

    /** A narrowed grant is covered under everything denied so far. */
    lemma {:induction false} ScopeIsCovered(caps: CapSet, below: CapSet, cont: seq<Item>)
      requires "main" in p.fns && Covered(caps, below)
      ensures Covered(ScopeOf(caps, cont), below + DeniedIn(cont))
      decreases |cont|
    {
      if cont == [] {
        assert below + DeniedIn(cont) == below;
      } else {
        ScopeIsCovered(caps, below, cont[1..]);
        var outer := ScopeOf(caps, cont[1..]);
        forall c: Capability | SatisfiesRequired(ScopeOf(caps, cont), c)
          ensures Granted(c, below + DeniedIn(cont))
        {
          if cont[0].EndDeny? {
            NarrowedGrantsAvoidDenied(outer, cont[0].denied, c);
          }
          assert Granted(c, below + DeniedIn(cont[1..]));
        }
      }
    }

    lemma {:induction false} NothingDeniedOutsideDeny(cont: seq<Item>)
      requires !InDeny(cont)
      ensures DeniedIn(cont) == {}
      decreases |cont|
    {
      if cont != [] {
        assert forall k | 0 <= k < |cont[1..]| :: cont[1..][k] == cont[k + 1];
        NothingDeniedOutsideDeny(cont[1..]);
      }
    }

    /** Entering `g` is covered once a set that contains its charge is. */
    lemma EntryIsCovered(g: string, denied: CapSet)
      requires Valid() && g in p.fns && Covered(Lookup(w, g), denied)
      ensures Covered(Entry(p, mode, w, g).caps, denied)
    {
      var caps := Entry(p, mode, w, g).caps;
      assert caps <= Lookup(w, g) by {
        if mode == Inferred {
          InferredMapIsClosed(p, hot, w);
          assert HasCeiling(p, g) || p.fns[g].Declared() == {};
        }
      }
      forall c: Capability | SatisfiesRequired(caps, c)
        ensures Granted(c, denied)
      {
        var h :| h in caps && h.Satisfies(c);
        assert SatisfiesRequired(Lookup(w, g), c);
      }
    }

    lemma EntryEnforces(n: string)
      requires Valid() && n in p.fns
      ensures Entry(p, mode, w, n) == At(Entry(p, mode, w, n).caps, true, false)
    {
    }

    lemma FunctionIsChecked(n: string)
      requires Valid() && n in p.fns
      ensures ContChecked(p.fns[n], Entry(p, mode, w, n).caps, [Run(p.fns[n].body)])
    {
      AcceptsIffFunctionsClean(p, mode, hot, w);
      EntryEnforces(n);
      assert NoErrors(FunctionDiags(p, mode, hot, w, n));
      assert [Run(p.fns[n].body)][1..] == [];
    }

    // ----- one step keeps the invariant -----

    /** What the checker established about the command in front of `tail`. */
    ghost predicate Poised(f: Frame, below: CapSet, c: Cmd, tail: seq<Item>)
      requires "main" in p.fns && WellShaped(p, f)
    {
      && FrameSafe(f, below)
      && CallsWithin(c, p.fns[f.fn])
      && CallsOpenly(p.fns[f.fn], DeniedIn(tail) != {}, c)
      && NoErrors(BodyDiags(p, hot, w, p.fns[f.fn], Here(f, tail), c))
      && Covered(Here(f, tail).caps, below + DeniedIn(tail))
    }

    function Here(f: Frame, tail: seq<Item>): At
      requires f.fn in p.fns
    {
      At(ScopeOf(Entry(p, mode, w, f.fn).caps, tail), true, InDeny(tail))
    }

    /** A deferred own parameter is safe to call, or to hand on: where nothing is denied because
        its position is hot, elsewhere because the grant was shown to hold `all`. */
    lemma OwnParamSafe(f: Frame, below: CapSet, tail: seq<Item>, n: string, i: nat)
      requires "main" in p.fns && WellShaped(p, f) && FrameSafe(f, below)
      requires Covered(Here(f, tail).caps, below + DeniedIn(tail))
      requires i < |f.env| && p.fns[f.fn].params[i].name == n
      requires p.fns[f.fn].params[i].fnTyped ==> (f.fn, i) in hot
      requires OwnFnParam(p.fns[f.fn], n) && DeniedIn(tail) != {} ==> IsSubsetOf({All}, Here(f, tail).caps)
      ensures ValueSafe(f.env[i], below + DeniedIn(tail))
    {
      var d, denied := p.fns[f.fn], below + DeniedIn(tail);
      if d.params[i].fnTyped {
        assert d.params[i] == Param(n, true);
        if DeniedIn(tail) != {} {
          CoveredBySubset({All}, Here(f, tail).caps, denied);
          EverythingCovered({}, denied, f.env[i]);
        } else {
          assert denied == below;
        }
      }
    }

    lemma NameSafe(f: Frame, below: CapSet, tail: seq<Item>, n: string)
      requires "main" in p.fns && WellShaped(p, f)
      requires Covered(Here(f, tail).caps, below + DeniedIn(tail))
      requires !IsLocal(p.fns[f.fn], n)
      requires IsSubsetOf(Charge(ResolveName(p, hot, w, p.fns[f.fn], n), InDeny(tail)), Here(f, tail).caps)
      ensures ValueSafe(EvalArg(p, p.fns[f.fn], f.env, Ident(n)), below + DeniedIn(tail))
    {
      var d, denied := p.fns[f.fn], below + DeniedIn(tail);
      var charge := Charge(ResolveName(p, hot, w, d, n), InDeny(tail));
      var v := EvalArg(p, d, f.env, Ident(n));
      assert !OwnFnParam(d, n);
      CoveredBySubset(charge, Here(f, tail).caps, denied);
      if charge == {All} {
        EverythingCovered({}, denied, v);
      } else if v.BuiltinVal? && n in p.gated {
        assert SatisfiesRequired(charge, p.gated[n]) by {
          TreeOrder(p.gated[n], p.gated[n], p.gated[n]);
        }
      }
    }

    /** A value that lands in a hot position is safe there. */
    lemma HotArgSafe(f: Frame, below: CapSet, tail: seq<Item>, s: CallSite, j: nat)
      requires Valid() && WellShaped(p, f) && FrameSafe(f, below)
      requires Covered(Here(f, tail).caps, below + DeniedIn(tail))
      requires s in Calls(p.fns[f.fn].body) && j < |s.args|
      requires IsSubsetOf(HotExtra(p, hot, w, p.fns[f.fn], s.callee, s.args, s.isMethod, InDeny(tail)),
                          Here(f, tail).caps)
      requires (s.callee, j + Offset(p, s.callee, s.isMethod)) in hot
      ensures ValueSafe(EvalArg(p, p.fns[f.fn], f.env, s.args[j]), below + DeniedIn(tail))
    {
      var d, at := p.fns[f.fn], Here(f, tail);
      var target := (s.callee, j + Offset(p, s.callee, s.isMethod));
      var charge := Charge(ResolveArg(p, hot, w, d, s.args[j]), at.inDeny);
      assert IsSubsetOf(charge, at.caps) by {
        assert charge <= HotExtra(p, hot, w, d, s.callee, s.args, s.isMethod, at.inDeny);
      }
      if s.args[j].Ident? {
        var n := s.args[j].name;
        if IsLocal(d, n) {
          var i := ParamIndex(d.params, n);
          if d.params[i].fnTyped {
            var k :| 0 <= k < |Calls(d.body)| && Calls(d.body)[k] == s;
            assert SiteForwards(p, s, n, target);
            assert Forwards(p, (f.fn, i), target);
            HotSetIsClosed(p, hot);
          }
          if !InDeny(tail) {
            NothingDeniedOutsideDeny(tail);
          }
          OwnParamSafe(f, below, tail, n, i);
        } else {
          NameSafe(f, below, tail, n);
        }
      }
    }

    /** The callee starts covered, with safe values in its hot parameters. */
    lemma EnteredFrameSafe(f: Frame, below: CapSet, tail: seq<Item>, s: CallSite, g: string, offset: nat)
      requires Valid() && WellShaped(p, f) && FrameSafe(f, below) && g in p.fns
      requires Covered(Lookup(w, g), below + DeniedIn(tail))
      requires forall j: nat | j < |s.args| && (g, j + offset) in hot ::
                 ValueSafe(EvalArg(p, p.fns[f.fn], f.env, s.args[j]), below + DeniedIn(tail))
      ensures FrameSafe(Frame(g, Bind(p, p.fns[f.fn], f.env, p.fns[g], s.args, offset), [Run(p.fns[g].body)]),
                        below + DeniedIn(tail))
    {
      EntryIsCovered(g, below + DeniedIn(tail));
      FunctionIsChecked(g);
      var bound := Bind(p, p.fns[f.fn], f.env, p.fns[g], s.args, offset);
      forall i | 0 <= i < |bound| && (g, i) in hot
        ensures ValueSafe(bound[i], below + DeniedIn(tail))
      {
        if p.fns[g].params[i].fnTyped && offset <= i && i - offset < |s.args| {
          assert (g, (i - offset) + offset) in hot;
        }
      }
    }

    /** A call of a name that is not a parameter. */
    lemma NamesAreClean(f: Frame, below: CapSet, tail: seq<Item>, c: Cmd)
      requires Valid() && WellShaped(p, f) && Poised(f, below, c, tail) && (c.Call? || c.MethodCall?)
      ensures var d, at := p.fns[f.fn], Here(f, tail);
              NoErrors(NameDiags(p, w, at, c.callee, c.Call?,
                                 HotExtra(p, hot, w, d, c.callee, c.args, c.MethodCall?, at.inDeny)))
    {
      hide NameDiags, DirectDiags, ArgsDiags, HotExtra, Accepts;
      var d, at := p.fns[f.fn], Here(f, tail);
      var names := NameDiags(p, w, at, c.callee, c.Call?,
                             HotExtra(p, hot, w, d, c.callee, c.args, c.MethodCall?, at.inDeny));
      assert forall x | x in names :: x in BodyDiags(p, hot, w, d, at, c);
    }

    /** A name that is no parameter means the same to the walk and to the run. */
    lemma DispatchIsNamed(f: Frame, c: Cmd)
      requires WellShaped(p, f) && (c.MethodCall? || (c.Call? && !IsLocal(p.fns[f.fn], c.callee)))
      ensures match Dispatch(p, p.fns[f.fn], f.env, c)
              case Enter(g, offset) => g == c.callee && offset == Offset(p, c.callee, c.MethodCall?) && g in p.fns
              case Gate(cap) => c.Call? && !p.Defined(c.callee) && c.callee in p.gated && cap == p.gated[c.callee]
              case _ => true
    {
    }

    /** What the walk established about a call: the callee's set and the hot arguments' charge. */
    lemma CallIsCharged(f: Frame, below: CapSet, tail: seq<Item>, c: Cmd)
      requires Valid() && WellShaped(p, f) && Poised(f, below, c, tail) && (c.Call? || c.MethodCall?)
      ensures CallSite(c.callee, c.args, c.MethodCall?) in Calls(p.fns[f.fn].body)
      ensures IsSubsetOf(HotExtra(p, hot, w, p.fns[f.fn], c.callee, c.args, c.MethodCall?, InDeny(tail)),
                         Here(f, tail).caps)
      ensures Covered(Lookup(w, c.callee), below + DeniedIn(tail))
      ensures c.Call? && !p.Defined(c.callee) && c.callee in p.gated
              ==> SatisfiesRequired(Here(f, tail).caps, p.gated[c.callee])
    {
      var d, at := p.fns[f.fn], Here(f, tail);
      assert CallSite(c.callee, c.args, c.MethodCall?) in Calls(c);
      NamesAreClean(f, below, tail, c);
      hide NameDiags, BodyDiags, HotExtra, EnvSafe, ContChecked, Accepts, NoErrors, FrameSafe, Covered, IsSubsetOf;
      CalleeWithinGrant(at, c.callee, c.Call?, HotExtra(p, hot, w, d, c.callee, c.args, c.MethodCall?, at.inDeny));
      CoveredBySubset(Lookup(w, c.callee), at.caps, below + DeniedIn(tail));
    }

    lemma GlobalEnterSafe(f: Frame, below: CapSet, tail: seq<Item>, c: Cmd)
      requires Valid() && WellShaped(p, f) && Poised(f, below, c, tail) && (c.Call? || c.MethodCall?)
               && c.callee in p.fns
      ensures var g, offset := c.callee, Offset(p, c.callee, c.MethodCall?);
              FrameSafe(Frame(g, Bind(p, p.fns[f.fn], f.env, p.fns[g], c.args, offset), [Run(p.fns[g].body)]),
                        below + DeniedIn(tail))
    {
      hide BodyDiags, NoErrors, Accepts, EnvSafe, ContChecked, HotExtra, Bind, CallsOpenly, FrameSafe, Covered,
           ValueSafe, IsSubsetOf, EvalArg;
      CallIsCharged(f, below, tail, c);
      var s, offset := CallSite(c.callee, c.args, c.MethodCall?), Offset(p, c.callee, c.MethodCall?);
      forall j: nat | j < |s.args| && (s.callee, j + offset) in hot
        ensures ValueSafe(EvalArg(p, p.fns[f.fn], f.env, s.args[j]), below + DeniedIn(tail))
      {
        HotArgSafe(f, below, tail, s, j);
      }
      EnteredFrameSafe(f, below, tail, s, s.callee, offset);
    }

    lemma GlobalCallSafe(f: Frame, below: CapSet, tail: seq<Item>, c: Cmd)
      requires Valid() && WellShaped(p, f) && Poised(f, below, c, tail)
      requires c.MethodCall? || (c.Call? && !IsLocal(p.fns[f.fn], c.callee))
      ensures match Dispatch(p, p.fns[f.fn], f.env, c)
              case Enter(g, offset) => FrameSafe(Frame(g, Bind(p, p.fns[f.fn], f.env, p.fns[g], c.args, offset),
                                                       [Run(p.fns[g].body)]), below + DeniedIn(tail))
              case Gate(cap) => Granted(cap, below + DeniedIn(tail))
              case _ => true
    {
      CallIsCharged(f, below, tail, c);
      DispatchIsNamed(f, c);
      hide BodyDiags, HotExtra, Bind, EnvSafe, ContChecked, Accepts, NoErrors, FrameSafe, Dispatch, IsSubsetOf;
      if c.callee in p.fns {
        GlobalEnterSafe(f, below, tail, c);
      }
    }

    lemma CalleeWithinGrant(at: At, n: string, isBuiltinName: bool, extra: CapSet)
      requires at.enforcing && NoErrors(NameDiags(p, w, at, n, isBuiltinName, extra))
      ensures IsSubsetOf(Lookup(w, n), at.caps) && IsSubsetOf(extra, at.caps)
      ensures isBuiltinName && !p.Defined(n) && n in p.gated ==> SatisfiesRequired(at.caps, p.gated[n])
    {
      var callee := Lookup(w, n) + extra;
      var first := if isBuiltinName && !p.Defined(n) && n in p.gated && !SatisfiesRequired(at.caps, p.gated[n])
                   then [BuiltinDenied(n, p.gated[n])] else [];
      var second := if callee != {} && !IsSubsetOf(callee, at.caps)
                    then [CalleeExceeds(n, ExcessOver(callee, at.caps))] else [];
      assert NameDiags(p, w, at, n, isBuiltinName, extra) == first + second;
      NoErrorsOfBoth(first, second);
      if isBuiltinName && !p.Defined(n) && n in p.gated {
        NoErrorsIf(!SatisfiesRequired(at.caps, p.gated[n]), BuiltinDenied(n, p.gated[n]));
      }
      NoErrorsIf(callee != {} && !IsSubsetOf(callee, at.caps), CalleeExceeds(n, ExcessOver(callee, at.caps)));
      assert IsSubsetOf(callee, at.caps);
    }

    lemma CalledParamIsHot(n: string, i: nat, c: Cmd)
      requires Closed(p, hot)
      requires n in p.fns && c.Call? && CallsWithin(c, p.fns[n])
      requires i < |p.fns[n].params| && p.fns[n].params[i] == Param(c.callee, true)
      ensures (n, i) in hot && OwnFnParam(p.fns[n], c.callee)
    {
      var calls := Calls(p.fns[n].body);
      var s := CallSite(c.callee, c.args, false);
      assert Calls(c) == [s] && s in Calls(c);
      var k :| 0 <= k < |calls| && calls[k] == s;
      assert CalledDirectly(p, (n, i));
      assert OwnFnParam(p.fns[n], c.callee);
    }

    /** Inside a `deny!` the grant of a call of an own parameter holds everything. */
    lemma CalledParamIsCharged(f: Frame, below: CapSet, tail: seq<Item>, c: Cmd)
      requires Valid() && WellShaped(p, f) && Poised(f, below, c, tail)
      requires c.Call? && OwnFnParam(p.fns[f.fn], c.callee) && DeniedIn(tail) != {}
      ensures IsSubsetOf({All}, Here(f, tail).caps)
    {
      var d := p.fns[f.fn];
      assert InDeny(tail) by {
        if !InDeny(tail) {
          NothingDeniedOutsideDeny(tail);
        }
      }
      assert !NamedInEnforcement(p, d, c.callee) && NoErrors(BodyDiags(p, hot, w, d, Here(f, tail), c));
      assert Here(f, tail).enforcing;
      hide Poised, Valid, BodyDiags, NoErrors, InDeny, DeniedIn, IsSubsetOf, CallsOpenly;
      DirectWithinGrant(d, Here(f, tail), c);
    }

    /** The value a called parameter holds is safe. */
    lemma CalledParamSafe(f: Frame, below: CapSet, tail: seq<Item>, c: Cmd)
      requires Valid() && WellShaped(p, f) && Poised(f, below, c, tail)
      requires c.Call? && IsLocal(p.fns[f.fn], c.callee)
      ensures ValueSafe(EvalArg(p, p.fns[f.fn], f.env, Ident(c.callee)), below + DeniedIn(tail))
    {
      var d := p.fns[f.fn];
      var i := ParamIndex(d.params, c.callee);
      assert !d.params[i].fnTyped ==> f.env[i] == DataVal;
      assert FrameSafe(f, below) && CallsWithin(c, d) && Covered(Here(f, tail).caps, below + DeniedIn(tail));
      assert IsHotSet(p, hot);
      if d.params[i].fnTyped {
        HotSetIsClosed(p, hot);
        hide IsHotSet, Closed, FrameSafe, ValueSafe, Covered, CallsWithin, Valid, Poised, BodyDiags;
        CalledParamIsHot(f.fn, i, c);
        if DeniedIn(tail) != {} {
          CalledParamIsCharged(f, below, tail, c);
        }
        OwnParamSafe(f, below, tail, c.callee, i);
      }
    }

    /** A call of an own parameter runs whatever value it holds. */
    lemma ParamCallSafe(f: Frame, below: CapSet, tail: seq<Item>, c: Cmd)
      requires Valid() && WellShaped(p, f) && Poised(f, below, c, tail)
      requires c.Call? && IsLocal(p.fns[f.fn], c.callee)
      ensures match Dispatch(p, p.fns[f.fn], f.env, c)
              case Enter(g, offset) => FrameSafe(Frame(g, Bind(p, p.fns[f.fn], f.env, p.fns[g], c.args, offset),
                                                       [Run(p.fns[g].body)]), below + DeniedIn(tail))
              case Gate(cap) => Granted(cap, below + DeniedIn(tail))
              case _ => true
    {
      var d, denied := p.fns[f.fn], below + DeniedIn(tail);
      CalledParamSafe(f, below, tail, c);
      hide Poised, Valid, FrameSafe, Bind, Accepts;
      match Dispatch(p, d, f.env, c)
      case Enter(g, offset) =>
        forall j: nat | j < |c.args| && (g, j + 0) in hot
          ensures ValueSafe(EvalArg(p, d, f.env, c.args[j]), denied)
        {
          assert HasHotParam(hot, g);
          EverythingCovered({}, denied, EvalArg(p, d, f.env, c.args[j]));
        }
        EnteredFrameSafe(f, below, tail, CallSite(c.callee, c.args, false), g, 0);
      case _ =>
    }

    lemma DirectWithinGrant(d: FnDecl, at: At, c: Cmd)
      requires at.enforcing && c.Call? && !NamedInEnforcement(p, d, c.callee)
      requires NoErrors(BodyDiags(p, hot, w, d, at, c))
      ensures IsSubsetOf(Charge(ResolveName(p, hot, w, d, c.callee), at.inDeny), at.caps)
    {
      var required := Charge(ResolveName(p, hot, w, d, c.callee), at.inDeny);
      var direct := DirectDiags(p, hot, w, d, at, c.callee);
      assert NoErrors(direct) by {
        assert forall x | x in direct :: x in BodyDiags(p, hot, w, d, at, c);
      }
      NoErrorsIf(required != {} && !IsSubsetOf(required, at.caps), DirectCallExceeds(ExcessOver(required, at.caps)));
    }

    lemma CallSafe(f: Frame, below: CapSet, tail: seq<Item>, c: Cmd)
      requires Valid() && WellShaped(p, f) && Poised(f, below, c, tail) && (c.Call? || c.MethodCall?)
      ensures match Dispatch(p, p.fns[f.fn], f.env, c)
              case Enter(g, offset) => FrameSafe(Frame(g, Bind(p, p.fns[f.fn], f.env, p.fns[g], c.args, offset),
                                                       [Run(p.fns[g].body)]), below + DeniedIn(tail))
              case Gate(cap) => Granted(cap, below + DeniedIn(tail))
              case _ => true
    {
      if c.Call? && IsLocal(p.fns[f.fn], c.callee) {
        ParamCallSafe(f, below, tail, c);
      } else {
        GlobalCallSafe(f, below, tail, c);
      }
    }

    lemma TopIsPoised(s: Stack)
      requires Valid() && StackSafe(s) && s != []
      requires s[|s| - 1].cont != [] && s[|s| - 1].cont[0].Run?
      ensures var top, below := s[|s| - 1], ActiveDenies(s[..|s| - 1]);
              && Poised(top, below, top.cont[0].c, top.cont[1..])
              && ActiveDenies(s) == below + DeniedIn(top.cont[1..])
    {
      var top, below := s[|s| - 1], ActiveDenies(s[..|s| - 1]);
      ScopeIsCovered(Entry(p, mode, w, top.fn).caps, below, top.cont[1..]);
    }

    /** The gated operation about to execute is granted under everything denied on the stack. */
    lemma FiringIsGranted(s: Stack)
      requires Valid() && StackSafe(s)
      requires Fires(p, s).Some?
      ensures Granted(Fires(p, s).value, ActiveDenies(s))
    {
      var top, below := s[|s| - 1], ActiveDenies(s[..|s| - 1]);
      var c, tail := top.cont[0].c, top.cont[1..];
      TopIsPoised(s);
      if c.PathCall? {
        NoErrorsIf(!SatisfiesRequired(Here(top, tail).caps, c.cap), PathDenied(c.cap));
      } else {
        CallSafe(top, below, tail, c);
      }
    }

    /** Splitting a command hands its checks to the parts. */
    lemma PartsAreChecked(f: Frame, c: Cmd, a: Cmd, b: Cmd, tail: seq<Item>)
      requires f.fn in p.fns && CallsWithin(c, p.fns[f.fn])
               && ContChecked(p.fns[f.fn], Entry(p, mode, w, f.fn).caps, tail)
      requires NoErrors(BodyDiags(p, hot, w, p.fns[f.fn], Here(f, tail), c))
      requires forall x | x in Calls(a) + Calls(b) :: x in Calls(c)
      requires CallsOpenly(p.fns[f.fn], DeniedIn(tail) != {}, a) && CallsOpenly(p.fns[f.fn], DeniedIn(tail) != {}, b)
      requires var at := Here(f, tail);
               forall x | x in BodyDiags(p, hot, w, p.fns[f.fn], at, a) + BodyDiags(p, hot, w, p.fns[f.fn], at, b) ::
                 x in BodyDiags(p, hot, w, p.fns[f.fn], at, c)
      ensures ContChecked(p.fns[f.fn], Entry(p, mode, w, f.fn).caps, [Run(b)] + tail)
      ensures ContChecked(p.fns[f.fn], Entry(p, mode, w, f.fn).caps, [Run(a)] + tail)
      ensures ContChecked(p.fns[f.fn], Entry(p, mode, w, f.fn).caps, [Run(a), Run(b)] + tail)
    {
      var d, caps, at := p.fns[f.fn], Entry(p, mode, w, f.fn).caps, Here(f, tail);
      var da, db := BodyDiags(p, hot, w, d, at, a), BodyDiags(p, hot, w, d, at, b);
      assert NoErrors(da) && NoErrors(db) by {
        assert forall x | x in da :: x in da + db;
        assert forall x | x in db :: x in da + db;
      }
      assert CallsWithin(a, d) && CallsWithin(b, d) by {
        assert forall x | x in Calls(a) :: x in Calls(a) + Calls(b);
        assert forall x | x in Calls(b) :: x in Calls(a) + Calls(b);
      }
      hide BodyDiags, NoErrors, CallsWithin, CallsOpenly;
      RunIsChecked(d, caps, a, tail);
      RunIsChecked(d, caps, b, tail);
      RunKeepsScope(caps, b, tail);
      RunIsChecked(d, caps, a, [Run(b)] + tail);
      assert [Run(a)] + ([Run(b)] + tail) == [Run(a), Run(b)] + tail;
    }

    lemma RunIsChecked(d: FnDecl, caps: CapSet, c: Cmd, tail: seq<Item>)
      requires ContChecked(d, caps, tail) && CallsWithin(c, d) && CallsOpenly(d, DeniedIn(tail) != {}, c)
      requires NoErrors(BodyDiags(p, hot, w, d, At(ScopeOf(caps, tail), true, InDeny(tail)), c))
      ensures ContChecked(d, caps, [Run(c)] + tail)
    {
      hide BodyDiags, NoErrors, CallsWithin, CallsOpenly;
      assert ([Run(c)] + tail)[1..] == tail;
    }

    lemma RunKeepsScope(caps: CapSet, b: Cmd, tail: seq<Item>)
      ensures ScopeOf(caps, [Run(b)] + tail) == ScopeOf(caps, tail)
      ensures InDeny([Run(b)] + tail) == InDeny(tail)
      ensures DeniedIn([Run(b)] + tail) == DeniedIn(tail)
    {
      var both := [Run(b)] + tail;
      assert both[1..] == tail;
      if InDeny(tail) {
        var k :| 0 <= k < |tail| && tail[k].EndDeny?;
        assert both[k + 1].EndDeny?;
      }
      if InDeny(both) {
        var k :| 0 <= k < |both| && both[k].EndDeny?;
        assert tail[k - 1].EndDeny?;
      }
    }

    lemma {:induction false} SafeIsShaped(s: Stack)
      requires "main" in p.fns && StackSafe(s)
      ensures AllShaped(p, s)
      decreases |s|
    {
      if s != [] {
        SafeIsShaped(s[..|s| - 1]);
        forall k | 0 <= k < |s|
          ensures WellShaped(p, s[k])
        {
          assert k < |s| - 1 ==> s[k] == s[..|s| - 1][k];
        }
      }
    }

    /** The innermost activation goes on with `cont`. */
    lemma ContinueSafe(s: Stack, cont: seq<Item>)
      requires "main" in p.fns && StackSafe(s) && s != []
      requires var top := s[|s| - 1]; ContChecked(p.fns[top.fn], Entry(p, mode, w, top.fn).caps, cont)
      ensures StackSafe(s[..|s| - 1] + [s[|s| - 1].(cont := cont)])
    {
      var s' := s[..|s| - 1] + [s[|s| - 1].(cont := cont)];
      assert s'[..|s'| - 1] == s[..|s| - 1];
    }

    lemma TwoParts(s: Stack, a: Cmd, b: Cmd)
      requires TopRuns(s)
      requires forall x | x in Calls(a) + Calls(b) :: x in Calls(s[|s| - 1].cont[0].c)
      requires var top := s[|s| - 1]; var denying := DeniedIn(top.cont[1..]) != {};
               CallsOpenly(p.fns[top.fn], denying, a) && CallsOpenly(p.fns[top.fn], denying, b)
      requires var top := s[|s| - 1];
               var at := Here(top, top.cont[1..]);
               forall x | x in BodyDiags(p, hot, w, p.fns[top.fn], at, a)
                 + BodyDiags(p, hot, w, p.fns[top.fn], at, b) ::
                 x in BodyDiags(p, hot, w, p.fns[top.fn], at, top.cont[0].c)
      ensures var rest, top := s[..|s| - 1], s[|s| - 1];
              && StackSafe(rest + [top.(cont := [Run(a), Run(b)] + top.cont[1..])])
              && StackSafe(rest + [top.(cont := [Run(a)] + top.cont[1..])])
    {
      var top := s[|s| - 1];
      PartsAreChecked(top, top.cont[0].c, a, b, top.cont[1..]);
      ContinueSafe(s, [Run(a), Run(b)] + top.cont[1..]);
      ContinueSafe(s, [Run(a)] + top.cont[1..]);
    }

    /** A command is in front of the innermost activation. */
    ghost predicate TopRuns(s: Stack) {
      && "main" in p.fns && StackSafe(s) && s != []
      && s[|s| - 1].cont != [] && s[|s| - 1].cont[0].Run?
    }

    lemma BranchStep(s: Stack, s': Stack)
      requires TopRuns(s) && Step(p, s, s')
      requires s[|s| - 1].cont[0].c.If?
      ensures StackSafe(s')
    {
      var If(g, a, b) := s[|s| - 1].cont[0].c;
      TwoParts(s, g, a);
      TwoParts(s, g, b);
    }

    lemma SeqStep(s: Stack, s': Stack)
      requires TopRuns(s) && Step(p, s, s')
      requires s[|s| - 1].cont[0].c.Seq?
      ensures StackSafe(s')
    {
      var Seq(a, b) := s[|s| - 1].cont[0].c;
      TwoParts(s, a, b);
    }

    /** A loop that goes round: guard, body, and the loop itself again. */
    lemma LoopAgain(f: Frame, c: Cmd, g: Cmd, b: Cmd, tail: seq<Item>)
      requires f.fn in p.fns && c == While(g, b)
               && ContChecked(p.fns[f.fn], Entry(p, mode, w, f.fn).caps, [Run(c)] + tail)
      ensures ContChecked(p.fns[f.fn], Entry(p, mode, w, f.fn).caps, tail)
      ensures ContChecked(p.fns[f.fn], Entry(p, mode, w, f.fn).caps, [Run(g)] + tail)
      ensures ContChecked(p.fns[f.fn], Entry(p, mode, w, f.fn).caps, [Run(g), Run(b), Run(c)] + tail)
    {
      var caps := Entry(p, mode, w, f.fn).caps;
      var again := [Run(c)] + tail;
      assert again[1..] == tail;
      RunKeepsScope(caps, c, tail);
      assert [Run(g), Run(b)] + again == [Run(g), Run(b), Run(c)] + tail;
      PartsAreChecked(f, c, g, b, tail);
      PartsAreChecked(f, c, g, b, again);
    }

    lemma LoopStep(s: Stack, s': Stack)
      requires TopRuns(s) && Step(p, s, s')
      requires s[|s| - 1].cont[0].c.While?
      ensures StackSafe(s')
    {
      hide BodyDiags, Calls, ContChecked, Dispatch;
      var top := s[|s| - 1];
      var c, tail := top.cont[0].c, top.cont[1..];
      assert top.cont == [Run(c)] + tail;
      LoopAgain(top, c, c.cond, c.body, tail);
      ContinueSafe(s, [Run(c.cond)] + tail);
      ContinueSafe(s, [Run(c.cond), Run(c.body), Run(c)] + tail);
    }

    lemma DenyStep(s: Stack, s': Stack)
      requires TopRuns(s) && Step(p, s, s')
      requires s[|s| - 1].cont[0].c.Deny?
      ensures StackSafe(s')
    {
      var top := s[|s| - 1];
      var Deny(denied, b) := top.cont[0].c;
      var tail := top.cont[1..];
      var inner := [EndDeny(denied)] + tail;
      assert inner[1..] == tail && inner[0].EndDeny?;
      var d, caps := p.fns[top.fn], Entry(p, mode, w, top.fn).caps;
      assert CallsWithin(b, d);
      var ds := BodyDiags(p, hot, w, d, At(ScopeOf(caps, inner), true, InDeny(inner)), b);
      assert forall x | x in ds :: x in BodyDiags(p, hot, w, d, Here(top, tail), top.cont[0].c);
      assert NoErrors(ds);
      assert DeniedIn(inner) == denied + DeniedIn(tail);
      assert CallsOpenly(d, DeniedIn(inner) != {}, b);
      RunIsChecked(d, caps, b, inner);
      ContinueSafe(s, [Run(b)] + inner);
      assert [Run(b)] + inner == [Run(b), EndDeny(denied)] + tail;
    }

    /** A new activation on top of safe ones. */
    lemma EnterSafe(s: Stack, f: Frame)
      requires "main" in p.fns && StackSafe(s) && WellShaped(p, f) && FrameSafe(f, ActiveDenies(s))
      ensures StackSafe(s + [f])
    {
      assert (s + [f])[..|s + [f]| - 1] == s;
    }

    lemma DispatchEnters(d: FnDecl, env: seq<Value>, c: Cmd)
      requires |env| == |d.params| && (c.Call? || c.MethodCall?)
      ensures var t := Dispatch(p, d, env, c); t.Enter? ==> t.fn in p.fns
    {
    }

    /** The caller goes on below, with what it had denied still denied. */
    lemma CallerWaits(s: Stack)
      requires Valid() && TopRuns(s)
      ensures var top := s[|s| - 1]; var caller := s[..|s| - 1] + [top.(cont := top.cont[1..])];
              StackSafe(caller) && ActiveDenies(caller) == ActiveDenies(s[..|s| - 1]) + DeniedIn(top.cont[1..])
    {
      hide BodyDiags, Accepts;
      var top := s[|s| - 1];
      ContinueSafe(s, top.cont[1..]);
      var caller := s[..|s| - 1] + [top.(cont := top.cont[1..])];
      assert caller[..|caller| - 1] == s[..|s| - 1];
    }

    lemma CallStep(s: Stack, s': Stack)
      requires Valid() && TopRuns(s) && Step(p, s, s')
      requires s[|s| - 1].cont[0].c.Call? || s[|s| - 1].cont[0].c.MethodCall?
      ensures StackSafe(s')
    {
      var top, below := s[|s| - 1], ActiveDenies(s[..|s| - 1]);
      var c, tail := top.cont[0].c, top.cont[1..];
      hide BodyDiags, Covered, Bind, Dispatch, Accepts, FrameSafe, DeniedIn, ActiveDenies;
      TopIsPoised(s);
      CallSafe(top, below, tail, c);
      CallerWaits(s);
      DispatchEnters(p.fns[top.fn], top.env, c);
      match Dispatch(p, p.fns[top.fn], top.env, c)
      case Enter(g, offset) =>
        EnterSafe(s[..|s| - 1] + [top.(cont := tail)],
                  Frame(g, Bind(p, p.fns[top.fn], top.env, p.fns[g], c.args, offset), [Run(p.fns[g].body)]));
      case _ =>
    }

    /** Every step keeps every activation safe. */
    lemma StepKeepsSafe(s: Stack, s': Stack)
      requires Valid() && StackSafe(s) && Step(p, s, s')
      ensures StackSafe(s')
    {
      var top := s[|s| - 1];
      if top.cont == [] {
      } else if top.cont[0].EndDeny? {
        ContinueSafe(s, top.cont[1..]);
      } else {
        match top.cont[0].c
        case Return => ContinueSafe(s, []);
        case Seq(_, _) => SeqStep(s, s');
        case If(_, _, _) => BranchStep(s, s');
        case While(_, _) => LoopStep(s, s');
        case Deny(_, _) => DenyStep(s, s');
        case Call(_, _) => CallStep(s, s');
        case MethodCall(_, _) => CallStep(s, s');
        case _ => ContinueSafe(s, top.cont[1..]);
      }
    }

    lemma InitialStackSafe()
      requires Valid()
      ensures StackSafe(InitialStack(p))
    {
      FunctionIsChecked("main");
      var s := InitialStack(p);
      assert s[..|s| - 1] == [];
      var caps := Entry(p, mode, w, "main").caps;
      if p.fns["main"].kind == Handler || p.fns["main"].Annotated() || mode == Strict {
        assert caps == p.fns["main"].Declared();
      }
    }

    lemma {:induction false} RunStaysSafe(run: seq<Stack>, k: nat)
      requires Valid() && IsRun(p, run) && k < |run|
      ensures StackSafe(run[k])
    {
      if k == 0 {
        InitialStackSafe();
      } else {
        var j: nat := k - 1;
        assert Step(p, run[j], run[j + 1]);
        RunStaysSafe(run, j);
        StepKeepsSafe(run[j], run[j + 1]);
      }
    }

    /** Whole-run safety. In every state of every run of an accepted program, the gated
        operation about to execute is granted by `main`'s declaration and overlaps no
        capability denied by a `deny!` open anywhere on the call stack. */
    lemma WholeRunSafety(run: seq<Stack>, k: nat)
      requires Valid() && IsRun(p, run) && k < |run|
      ensures AllShaped(p, run[k])
      ensures Fires(p, run[k]).Some? ==>
                && SatisfiesRequired(p.fns["main"].Declared(), Fires(p, run[k]).value)
                && Avoids(Fires(p, run[k]).value, ActiveDenies(run[k]))
    {
      RunStaysSafe(run, k);
      SafeIsShaped(run[k]);
      if Fires(p, run[k]).Some? {
        FiringIsGranted(run[k]);
      }
    }
  }
}
