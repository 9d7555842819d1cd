/** The command language the capability checker is modelled over. A value position holds an
    identifier (a parameter, a function or a builtin handed over by name) or plain data. */
module Language {
  import opened Capabilities
  import opened Wrappers

  datatype Arg =
    | Ident(name: string)
    | Plain

  datatype Cmd =
    | Skip
    | Return
    | PathCall(cap: Capability)                      // std::net::..(..), gated by its path
    | Call(callee: string, args: seq<Arg>)           // f(a, b)
    | MethodCall(callee: string, args: seq<Arg>)     // obj.m(a, b)
    | Seq(first: Cmd, second: Cmd)
    | If(cond: Cmd, thn: Cmd, els: Cmd)
    | While(cond: Cmd, body: Cmd)
    | Deny(denied: CapSet, body: Cmd)                // deny!(caps) { body }

  datatype Param = Param(name: string, fnTyped: bool)

  /** A free function, a method (whose `params[0]` is the receiver) or an actor's message
      handler (which has no receiver slot). */
  datatype Kind = Free | Method | Handler

  /** `annotation` is the `@capabilities(..)` set, for a handler its actor's. */
  datatype FnDecl = FnDecl(kind: Kind, annotation: Option<CapSet>, params: seq<Param>, body: Cmd)
  {
    predicate Annotated() {
      annotation.Some?
    }

    function Declared(): CapSet {
      if annotation.Some? then annotation.value else {}
    }
  }

  /** `gated` maps a builtin to the capability it needs; `known` are the builtin names,
      gated or ambient. `order` lists the declarations in source order. */
  datatype Program = Program(fns: map<string, FnDecl>, order: seq<string>,
                             gated: map<string, Capability>, known: set<string>)
  {
    /** A bare name answers a call only as a free function. */
    predicate Defined(name: string) {
      name in fns && fns[name].kind == Free
    }

    predicate IsHandler(name: string) {
      name in fns && fns[name].kind == Handler
    }

    ghost predicate WellFormed() {
      forall n :: n in order <==> n in fns
    }
  }

  /** The first parameter called `n`, or the number of parameters. */
  function ParamIndex(params: seq<Param>, n: string): (i: nat)
    ensures i <= |params|
    ensures i < |params| ==> params[i].name == n
    ensures forall k | 0 <= k < i :: params[k].name != n
  {
    if params == [] || params[0].name == n then 0
    else
      assert forall k | 0 < k < |params| :: params[k] == params[1..][k - 1];
      ParamIndex(params[1..], n) + 1
  }

  predicate OwnFnParam(d: FnDecl, name: string) {
    exists i | 0 <= i < |d.params| :: d.params[i] == Param(name, true)
  }

  predicate IsLocal(d: FnDecl, name: string) {
    exists i | 0 <= i < |d.params| :: d.params[i].name == name
  }

  /** One call site of a body, as the structural passes see it. */
  datatype CallSite = CallSite(callee: string, args: seq<Arg>, isMethod: bool)

  function Calls(c: Cmd): seq<CallSite> {
    match c
    case Skip => []
    case Return => []
    case PathCall(_) => []
    case Call(n, args) => [CallSite(n, args, false)]
    case MethodCall(n, args) => [CallSite(n, args, true)]
    case Seq(a, b) => Calls(a) + Calls(b)
    case If(g, a, b) => Calls(g) + Calls(a) + Calls(b)
    case While(g, b) => Calls(g) + Calls(b)
    case Deny(_, b) => Calls(b)
  }

  /** A method's argument 0 is parameter 1; a handler has no receiver slot. */
  function Offset(p: Program, callee: string, isMethod: bool): nat {
    if isMethod && !p.IsHandler(callee) then 1 else 0
  }

  predicate DenyFree(c: Cmd) {
    match c
    case Seq(a, b) => DenyFree(a) && DenyFree(b)
    case If(g, a, b) => DenyFree(g) && DenyFree(a) && DenyFree(b)
    case While(g, b) => DenyFree(g) && DenyFree(b)
    case Deny(_, _) => false
    case _ => true
  }

  /** A parameter position of a function. */
  type Position = (string, nat)
}
