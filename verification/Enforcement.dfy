/** The enforcement walk (checker.rs `check_module`, `check_function`, `check_deny_block`,
    `check_callee_capabilities`, `enforce_callee_name`, `check_builtin_value_ref`): a class
    with a stack of scopes and a growing list of diagnostics, and the function it computes. */
module Enforcement {
  import opened Capabilities
  import opened Wrappers
  import opened Language
  import opened HotParams
  import opened Inference

  datatype Mode = Permissive | Inferred | Strict

  datatype Diagnostic =
    | PathDenied(cap: Capability)
    | BuiltinDenied(name: string, cap: Capability)
    | CalleeExceeds(name: string, excess: CapSet)
    | DirectCallExceeds(excess: CapSet)
    | ValueBuiltinDenied(name: string, cap: Capability)
    | ValueExceeds(name: string, excess: CapSet)
    | EmptyDeny                                        // the one warning

  predicate NoErrors(ds: seq<Diagnostic>) {
    forall x | x in ds :: x == EmptyDeny
  }

  lemma NoErrorsOfBoth(a: seq<Diagnostic>, b: seq<Diagnostic>)
    ensures NoErrors(a + b) <==> NoErrors(a) && NoErrors(b)
  {
    if NoErrors(a + b) {
      assert forall x | x in a :: x in a + b;
      assert forall x | x in b :: x in a + b;
    }
  }

  lemma NoErrorsIf(b: bool, x: Diagnostic)
    requires x != EmptyDeny
    ensures NoErrors(if b then [x] else []) <==> !b
  {
    assert x in [x];
  }

  datatype Scope = Scope(caps: CapSet, annotated: bool)

  /** Where the walk stands: the innermost grant, whether the guards fire, and whether a
      `deny!` block lies between here and the entry of the function. */
  datatype At = At(caps: CapSet, enforcing: bool, inDeny: bool)

  // ----- what the walk reports -----

  /** Parameters shadow every global of the same name; a handler's are not tracked. */
  predicate LocalInEnforcement(d: FnDecl, n: string) {
    d.kind != Handler && IsLocal(d, n)
  }

  predicate NamedInEnforcement(p: Program, d: FnDecl, n: string) {
    !LocalInEnforcement(d, n) && (p.Defined(n) || n in p.known)
  }

  function NameDiags(p: Program, w: CapMap, at: At, n: string, isBuiltinName: bool, extra: CapSet): seq<Diagnostic> {
    if !at.enforcing then []
    else
      (if isBuiltinName && !p.Defined(n) && n in p.gated && !SatisfiesRequired(at.caps, p.gated[n])
       then [BuiltinDenied(n, p.gated[n])] else [])
      + (var callee := Lookup(w, n) + extra;
         if callee != {} && !IsSubsetOf(callee, at.caps)
         then [CalleeExceeds(n, ExcessOver(callee, at.caps))] else [])
  }

  function DirectDiags(p: Program, hot: set<Position>, w: CapMap, d: FnDecl, at: At, n: string): seq<Diagnostic> {
    if NamedInEnforcement(p, d, n) || !at.enforcing then []
    else
      var required := Charge(ResolveName(p, hot, w, d, n), at.inDeny);
      if required != {} && !IsSubsetOf(required, at.caps)
      then [DirectCallExceeds(ExcessOver(required, at.caps))] else []
  }

  function ValueDiags(p: Program, w: CapMap, d: FnDecl, at: At, a: Arg): seq<Diagnostic> {
    if a.Plain? || !at.enforcing then []
    else
      (if !p.Defined(a.name) && a.name in p.gated && !SatisfiesRequired(at.caps, p.gated[a.name])
       then [ValueBuiltinDenied(a.name, p.gated[a.name])] else [])
      + (if !LocalInEnforcement(d, a.name) && a.name in w && !IsSubsetOf(w[a.name], at.caps)
         then [ValueExceeds(a.name, ExcessOver(w[a.name], at.caps))] else [])
  }

  function ArgsDiags(p: Program, w: CapMap, d: FnDecl, at: At, args: seq<Arg>): seq<Diagnostic> {
    if args == [] then []
    else ArgsDiags(p, w, d, at, args[..|args| - 1]) + ValueDiags(p, w, d, at, args[|args| - 1])
  }

  function BodyDiags(p: Program, hot: set<Position>, w: CapMap, d: FnDecl, at: At, c: Cmd): seq<Diagnostic>
    decreases c
  {
    match c
    case Skip => []
    case Return => []
    case PathCall(cap) => if SatisfiesRequired(at.caps, cap) then [] else [PathDenied(cap)]
    case Call(n, args) =>
      NameDiags(p, w, at, n, true, HotExtra(p, hot, w, d, n, args, false, at.inDeny))
      + DirectDiags(p, hot, w, d, at, n)
      + ArgsDiags(p, w, d, at, args)
    case MethodCall(n, args) =>
      NameDiags(p, w, at, n, false, HotExtra(p, hot, w, d, n, args, true, at.inDeny))
      + ArgsDiags(p, w, d, at, args)
    case Seq(a, b) => BodyDiags(p, hot, w, d, at, a) + BodyDiags(p, hot, w, d, at, b)
    case If(g, a, b) =>
      BodyDiags(p, hot, w, d, at, g) + BodyDiags(p, hot, w, d, at, a) + BodyDiags(p, hot, w, d, at, b)
    case While(g, b) => BodyDiags(p, hot, w, d, at, g) + BodyDiags(p, hot, w, d, at, b)
    case Deny(denied, b) =>
      (if denied == {} then [EmptyDeny] else [])
      + BodyDiags(p, hot, w, d, At(Without(at.caps, denied), true, true), b)
  }

  /** The grant a body is checked against, and whether its guards fire. */
  function Entry(p: Program, mode: Mode, w: CapMap, n: string): At
    requires n in p.fns
  {
    var d := p.fns[n];
    if d.kind == Handler then At(d.Declared(), d.Annotated() || mode != Permissive, false)
    else match mode
      case Permissive => At(d.Declared(), d.Annotated(), false)
      case Strict => At(d.Declared(), true, false)
      case Inferred =>
        if d.Annotated() || n == "main" then At(d.Declared(), true, false)
        else At(Lookup(w, n), true, false)
  }

  function FunctionDiags(p: Program, mode: Mode, hot: set<Position>, w: CapMap, n: string): seq<Diagnostic>
    requires n in p.fns
  {
    BodyDiags(p, hot, w, p.fns[n], Entry(p, mode, w, n), p.fns[n].body)
  }

  function ModuleDiags(p: Program, mode: Mode, hot: set<Position>, w: CapMap, order: seq<string>): seq<Diagnostic>
    requires forall n | n in order :: n in p.fns
  {
    if order == [] then []
    else ModuleDiags(p, mode, hot, w, order[..|order| - 1]) + FunctionDiags(p, mode, hot, w, order[|order| - 1])
  }

  /** The map the enforcement walk works with. */
  ghost predicate IsEnforcementMap(p: Program, mode: Mode, hot: set<Position>, w: CapMap) {
    if mode == Inferred then IsInferredMap(p, hot, w) else w == DeclaredMap(p)
  }

  /** The module is accepted: no diagnostic other than the warning. */
  ghost predicate Accepts(p: Program, mode: Mode, hot: set<Position>, w: CapMap)
    requires p.WellFormed()
  {
    && IsHotSet(p, hot)
    && IsEnforcementMap(p, mode, hot, w)
    && NoErrors(ModuleDiags(p, mode, hot, w, p.order))
  }

  lemma {:induction false} ModuleCleanIffFunctionsClean(p: Program, mode: Mode, hot: set<Position>, w: CapMap,
                                                        order: seq<string>)
    requires forall n | n in order :: n in p.fns
    ensures NoErrors(ModuleDiags(p, mode, hot, w, order)) <==>
              forall n | n in order :: NoErrors(FunctionDiags(p, mode, hot, w, n))
  {
    if order != [] {
      var init, last := order[..|order| - 1], order[|order| - 1];
      ModuleCleanIffFunctionsClean(p, mode, hot, w, init);
      var before, mine := ModuleDiags(p, mode, hot, w, init), FunctionDiags(p, mode, hot, w, last);
      assert ModuleDiags(p, mode, hot, w, order) == before + mine;
      assert NoErrors(before + mine) <==> NoErrors(before) && NoErrors(mine) by {
        NoErrorsOfBoth(before, mine);
      }
      assert order == init + [last];
    }
  }

  lemma AcceptsIffFunctionsClean(p: Program, mode: Mode, hot: set<Position>, w: CapMap)
    requires p.WellFormed() && IsHotSet(p, hot) && IsEnforcementMap(p, mode, hot, w)
    ensures Accepts(p, mode, hot, w) <==> forall n | n in p.fns :: NoErrors(FunctionDiags(p, mode, hot, w, n))
  {
    ModuleCleanIffFunctionsClean(p, mode, hot, w, p.order);
  }

  // ----- the checker object -----

  predicate AnyEnforcing(mode: Mode, stack: seq<Scope>) {
    mode == Strict || exists k | 0 <= k < |stack| :: stack[k].annotated
  }

  function WalkPosition(mode: Mode, stack: seq<Scope>, entryDepth: nat): At
    requires stack != []
  {
    At(stack[|stack| - 1].caps, AnyEnforcing(mode, stack), |stack| > entryDepth)
  }

  lemma InsideDeny(mode: Mode, stack: seq<Scope>, entryDepth: nat, caps: CapSet)
    requires |stack| >= entryDepth
    ensures WalkPosition(mode, stack + [Scope(caps, true)], entryDepth) == At(caps, true, true)
  {
    var inner := stack + [Scope(caps, true)];
    assert inner[|stack|].annotated;
  }

  lemma AloneEnforces(mode: Mode, scope: Scope)
    ensures AnyEnforcing(mode, [scope]) <==> mode == Strict || scope.annotated
  {
    assert [scope][0] == scope;
  }

  ghost function CmdSize(c: Cmd): nat
    ensures CmdSize(c) > 0
  {
    match c
    case Seq(a, b) => 1 + CmdSize(a) + CmdSize(b)
    case If(g, a, b) => 1 + CmdSize(g) + CmdSize(a) + CmdSize(b)
    case While(g, b) => 1 + CmdSize(g) + CmdSize(b)
    case Deny(_, b) => 1 + CmdSize(b)
    case _ => 1
  }

  class CapabilityChecker {
    const p: Program
    const mode: Mode
    var scopeStack: seq<Scope>
    var entryDepth: nat
    var diagnostics: seq<Diagnostic>
    var fnCapabilities: CapMap
    var hotParams: set<Position>
    /** The declaration whose parameters are the current locals. */
    var current: FnDecl

    constructor (p: Program, mode: Mode)
      ensures this.p == p && this.mode == mode
      ensures scopeStack == [] && entryDepth == 0 && diagnostics == []
      ensures fnCapabilities == map[] && hotParams == {}
    {
      this.p, this.mode := p, mode;
      scopeStack, entryDepth, diagnostics := [], 0, [];
      fnCapabilities, hotParams := map[], {};
      current := FnDecl(Free, None, [], Skip);
    }

    predicate Enforcing()
      reads this
    {
      AnyEnforcing(mode, scopeStack)
    }

    /** The walk's position, read off the stack. */
    function Here(): At
      requires scopeStack != []
      reads this
    {
      WalkPosition(mode, scopeStack, entryDepth)
    }

    /** What every step of the walk leaves alone. */
    twostate predicate WalkFrame()
      reads this
    {
      && scopeStack == old(scopeStack) && entryDepth == old(entryDepth)
      && fnCapabilities == old(fnCapabilities) && hotParams == old(hotParams) && current == old(current)
    }

    method EnforceCalleeName(n: string, isBuiltinName: bool, extra: CapSet)
      requires scopeStack != []
      modifies this`diagnostics
      ensures diagnostics == old(diagnostics) + NameDiags(p, fnCapabilities, Here(), n, isBuiltinName, extra)
    {
      if !Enforcing() {
        return;
      }
      var caps := scopeStack[|scopeStack| - 1].caps;
      if isBuiltinName && !p.Defined(n) {
        if n in p.gated && !SatisfiesRequired(caps, p.gated[n]) {
          diagnostics := diagnostics + [BuiltinDenied(n, p.gated[n])];
        }
      }
      var callee := Lookup(fnCapabilities, n) + extra;
      if callee != {} && !IsSubsetOf(callee, caps) {
        diagnostics := diagnostics + [CalleeExceeds(n, ExcessOver(callee, caps))];
      }
    }

    method CheckCallee(n: string, args: seq<Arg>)
      requires scopeStack != []
      modifies this`diagnostics
      ensures diagnostics == old(diagnostics)
        + NameDiags(p, fnCapabilities, Here(), n, true,
                    HotExtra(p, hotParams, fnCapabilities, current, n, args, false, Here().inDeny))
        + DirectDiags(p, hotParams, fnCapabilities, current, Here(), n)
    {
      var inDeny := |scopeStack| > entryDepth;
      EnforceCalleeName(n, true, HotExtra(p, hotParams, fnCapabilities, current, n, args, false, inDeny));
      if !NamedInEnforcement(p, current, n) && Enforcing() {
        var caps := scopeStack[|scopeStack| - 1].caps;
        var required := Charge(ResolveName(p, hotParams, fnCapabilities, current, n), inDeny);
        if required != {} && !IsSubsetOf(required, caps) {
          diagnostics := diagnostics + [DirectCallExceeds(ExcessOver(required, caps))];
        }
      }
    }

    method CheckValueRef(a: Arg)
      requires scopeStack != []
      modifies this`diagnostics
      ensures diagnostics == old(diagnostics) + ValueDiags(p, fnCapabilities, current, Here(), a)
    {
      if a.Ident? && Enforcing() {
        var caps := scopeStack[|scopeStack| - 1].caps;
        if !p.Defined(a.name) && a.name in p.gated && !SatisfiesRequired(caps, p.gated[a.name]) {
          diagnostics := diagnostics + [ValueBuiltinDenied(a.name, p.gated[a.name])];
        }
        if LocalInEnforcement(current, a.name) {
          return;
        }
        if a.name in fnCapabilities && !IsSubsetOf(fnCapabilities[a.name], caps) {
          diagnostics := diagnostics + [ValueExceeds(a.name, ExcessOver(fnCapabilities[a.name], caps))];
        }
      }
    }

    method CheckArgs(args: seq<Arg>)
      requires scopeStack != []
      modifies this`diagnostics
      ensures diagnostics == old(diagnostics) + ArgsDiags(p, fnCapabilities, current, Here(), args)
    {
      hide ValueDiags, AnyEnforcing;
      for k := 0 to |args|
        invariant diagnostics == old(diagnostics) + ArgsDiags(p, fnCapabilities, current, Here(), args[..k])
      {
        CheckValueRef(args[k]);
        assert args[..k + 1][..k] == args[..k];
      }
      assert args[..|args|] == args;
    }

    method CheckDenyBlock(denied: CapSet, body: Cmd)
      requires scopeStack != [] && |scopeStack| >= entryDepth
      modifies this`scopeStack, this`diagnostics
      ensures WalkFrame()
      ensures diagnostics == old(diagnostics)
        + BodyDiags(p, hotParams, fnCapabilities, current, Here(), Deny(denied, body))
      decreases CmdSize(body), 1
    {
      hide AnyEnforcing, Without, NameDiags, DirectDiags, ArgsDiags, HotExtra, CmdSize;
      if denied == {} {
        diagnostics := diagnostics + [EmptyDeny];
      }
      var narrowed := Without(scopeStack[|scopeStack| - 1].caps, denied);
      ghost var outer := scopeStack;
      InsideDeny(mode, scopeStack, entryDepth, narrowed);
      scopeStack := scopeStack + [Scope(narrowed, true)];
      CheckBody(body);
      scopeStack := scopeStack[..|scopeStack| - 1];
      assert scopeStack == outer;
    }

    method CheckBody(c: Cmd)
      requires scopeStack != [] && |scopeStack| >= entryDepth
      modifies this`scopeStack, this`diagnostics
      ensures WalkFrame()
      ensures diagnostics == old(diagnostics) + BodyDiags(p, hotParams, fnCapabilities, current, Here(), c)
      decreases CmdSize(c), 0
    {
      hide NameDiags, DirectDiags, ArgsDiags, HotExtra, Without, AnyEnforcing;
      match c
      case Skip =>
      case Return =>
      case PathCall(cap) =>
        if !SatisfiesRequired(scopeStack[|scopeStack| - 1].caps, cap) {
          diagnostics := diagnostics + [PathDenied(cap)];
        }
      case Call(n, args) =>
        CheckCallee(n, args);
        CheckArgs(args);
      case MethodCall(n, args) =>
        EnforceCalleeName(n, false, HotExtra(p, hotParams, fnCapabilities, current, n, args, true,
                                             |scopeStack| > entryDepth));
        CheckArgs(args);
      case Seq(a, b) =>
        CheckBoth(a, b);
      case If(g, a, b) =>
        CheckBoth(g, a);
        CheckBody(b);
      case While(g, b) =>
        CheckBoth(g, b);
      case Deny(denied, b) =>
        CheckDenyBlock(denied, b);
    }

    method CheckBoth(a: Cmd, b: Cmd)
      requires scopeStack != [] && |scopeStack| >= entryDepth
      modifies this`scopeStack, this`diagnostics
      ensures WalkFrame()
      ensures diagnostics == old(diagnostics)
        + (BodyDiags(p, hotParams, fnCapabilities, current, Here(), a)
           + BodyDiags(p, hotParams, fnCapabilities, current, Here(), b))
      decreases CmdSize(a) + CmdSize(b), 0
    {
      hide BodyDiags, AnyEnforcing;
      CheckBody(a);
      CheckBody(b);
    }

    method CheckFunction(n: string)
      requires n in p.fns && scopeStack == []
      modifies this
      ensures scopeStack == [] && entryDepth == old(entryDepth)
      ensures fnCapabilities == old(fnCapabilities) && hotParams == old(hotParams)
      ensures diagnostics == old(diagnostics) + FunctionDiags(p, mode, hotParams, fnCapabilities, n)
    {
      var d := p.fns[n];
      current := d;
      var caps, annotated := d.Declared(), d.Annotated();
      if d.kind == Handler {
        annotated := annotated || mode != Permissive;
      } else {
        match mode
        case Permissive =>
        case Strict => annotated := true;
        case Inferred =>
          if !annotated && n != "main" {
            caps := Lookup(fnCapabilities, n);
          }
          annotated := true;
      }
      hide BodyDiags, Lookup, AnyEnforcing, CmdSize;
      scopeStack := scopeStack + [Scope(caps, annotated)];
      var savedEntryDepth := entryDepth;
      entryDepth := |scopeStack|;
      AloneEnforces(mode, Scope(caps, annotated));
      CheckBody(d.body);
      entryDepth := savedEntryDepth;
      scopeStack := scopeStack[..|scopeStack| - 1];
    }

    method CheckModule()
      requires p.WellFormed() && scopeStack == [] && diagnostics == []
      modifies this
      ensures IsHotSet(p, hotParams)
      ensures IsEnforcementMap(p, mode, hotParams, fnCapabilities)
      ensures diagnostics == ModuleDiags(p, mode, hotParams, fnCapabilities, p.order)
      ensures NoErrors(diagnostics) <==> Accepts(p, mode, hotParams, fnCapabilities)
    {
      var declared := DeclaredMap(p);
      var hot := ComputeHotParams(p);
      hotParams, fnCapabilities := hot, declared;
      if mode == Inferred {
        var inferred := ComputeInferredCapabilities(p, hot);
        InferredMapIsClosed(p, hot, inferred);
        fnCapabilities := map n | n in declared.Keys + inferred.Keys :: Lookup(declared, n) + Lookup(inferred, n);
        forall n
          ensures Lookup(fnCapabilities, n) == Lookup(inferred, n)
        {
          assert Lookup(declared, n) <= Lookup(inferred, n);
        }
      }
      for k := 0 to |p.order|
        invariant scopeStack == [] && hotParams == hot
        invariant IsEnforcementMap(p, mode, hotParams, fnCapabilities)
        invariant diagnostics == ModuleDiags(p, mode, hotParams, fnCapabilities, p.order[..k])
      {
        CheckFunction(p.order[k]);
        assert p.order[..k + 1][..k] == p.order[..k];
      }
      assert p.order[..|p.order|] == p.order;
    }
  }
}
