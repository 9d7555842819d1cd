/** Why whole-run safety asks handlers to call openly: the walk keeps no locals in a handler
    (checker.rs `check_actor`), so inside a `deny!` it takes the call of a parameter for a call
    of the global of the same name. Whatever is denied, a program that does so is accepted and
    executes a denied operation. */
module ShadowedHandler {
  import opened Capabilities
  import opened Wrappers
  import opened Language
  import opened HotParams
  import opened Inference
  import opened Enforcement
  import opened RunSafety

  /** The global that lends its name: a free function, or a builtin that needs nothing. */
  datatype Global = Function(declared: CapSet, body: Cmd) | Ambient

  /** `main` hands the gated builtin to a handler, which calls it inside `deny!` under the name
      of the global. */
  datatype Shadowing = Shadowing(grant: CapSet, denied: CapSet, builtin: string, cap: Capability, name: string,
                                 lender: Global)
  {
    function Main(): FnDecl {
      FnDecl(Free, Some(grant), [], MethodCall("on", [Ident(builtin)]))
    }

    function Handler(): FnDecl {
      FnDecl(Kind.Handler, Some(grant), [Param(name, true)], Deny(denied, Call(name, [])))
    }

    function Lender(): FnDecl
      requires lender.Function?
    {
      FnDecl(Free, Some(lender.declared), [], lender.body)
    }

    function Prog(): Program {
      if lender.Function? then
        Program(map["main" := Main(), "on" := Handler(), name := Lender()], ["main", "on", name], map[builtin := cap],
                {builtin})
      else
        Program(map["main" := Main(), "on" := Handler()], ["main", "on"], map[builtin := cap], {builtin, name})
    }

    /** The capability is held, and denied in the handler; what the global declares is left
        over by the denial, and its body, which calls nothing, keeps to it. */
    ghost predicate Fits() {
      && name != "main" && name != "on" && builtin != "main" && builtin != "on" && builtin != name
      && SatisfiesRequired(grant, cap) && !Avoids(cap, denied)
      && (lender.Function? ==>
            && IsSubsetOf(lender.declared, Without(grant, denied))
            && Calls(lender.body) == []
            && NoErrors(BodyDiags(Prog(), HOT, DeclaredMap(Prog()), Lender(), At(lender.declared, true, false),
                                  lender.body)))
    }

    lemma Shape()
      requires Fits()
      ensures var p := Prog();
              && p.fns.Keys == (if lender.Function? then {"main", "on", name} else {"main", "on"})
              && p.WellFormed() && p.fns["main"] == Main() && p.fns["on"] == Handler()
              && (lender.Function? ==> p.fns[name] == Lender())
              && p.gated == map[builtin := cap] && builtin in p.known
              && p.Defined("main") && !p.Defined("on") && p.IsHandler("on") && !p.Defined(builtin)
              && (p.Defined(name) || name in p.known) && (p.Defined(name) <==> lender.Function?)
    {
    }

    lemma SetsAreDeclared()
      requires Fits()
      ensures var w := DeclaredMap(Prog());
              && Lookup(w, "on") == grant && builtin !in w
              && Lookup(w, name) == if lender.Function? then lender.declared else {}
    {
      Shape();
      hide Prog;
    }

    lemma CallsAre()
      requires Fits()
      ensures Calls(Handler().body) == [CallSite(name, [], false)]
      ensures Calls(Main().body) == [CallSite("on", [Ident(builtin)], true)]
      ensures lender.Function? ==> Calls(Lender().body) == []
    {
    }

    lemma OnlyParamIsCalled()
      requires Fits()
      ensures forall pos :: CalledDirectly(Prog(), pos) <==> pos == ("on", 0)
    {
      Shape();
      CallsAre();
      var p := Prog();
      hide Prog, Fits, Calls;
      var site := Calls(p.fns["on"].body)[0];
      assert !site.isMethod && site.callee == p.fns["on"].params[0].name;
    }

    lemma NothingForwards()
      requires Fits()
      ensures forall pos, target | target in HOT :: !Forwards(Prog(), pos, target)
    {
      Shape();
      CallsAre();
      var p := Prog();
      hide Prog, Fits, Calls;
      forall pos, target | target in HOT
        ensures !Forwards(p, pos, target)
      {
        if pos.0 == "on" {
          assert forall k | 0 <= k < |Calls(Handler().body)| ::
                   !SiteForwards(p, Calls(Handler().body)[k], name, target);
        }
      }
    }

    lemma ParamIsHot()
      requires Fits()
      ensures IsHotSet(Prog(), HOT)
    {
      OnlyParamIsCalled();
      NothingForwards();
      hide Prog, Fits, Forwards, CalledDirectly;
      DirectIsHot(Prog(), ("on", 0));
      SoundAndClosedIsExact(Prog(), HOT);
    }

    lemma MainIsClean()
      requires Fits()
      ensures NoErrors(FunctionDiags(Prog(), Strict, HOT, DeclaredMap(Prog()), "main"))
    {
      Shape();
      MainCallIsClean();
      var p := Prog();
      hide Prog, Fits, DeclaredMap, NameDiags, ArgsDiags, HotExtra, NoErrors;
      assert Entry(p, Strict, DeclaredMap(p), "main") == At(grant, true, false);
      NoErrorsOfNone();
    }

    lemma NoErrorsOfNone()
      ensures NoErrors([])
    {
    }

    lemma MainCallIsClean()
      requires Fits()
      ensures BodyDiags(Prog(), HOT, DeclaredMap(Prog()), Main(), At(grant, true, false), Main().body) == []
    {
      Shape();
      SetsAreDeclared();
      var p := Prog();
      hide Prog, Fits, DeclaredMap;
      var w, d, at := DeclaredMap(p), Main(), At(grant, true, false);
      var args := [Ident(builtin)];
      var extra := HotExtra(p, HOT, w, d, "on", args, true, false);
      assert extra <= {cap} by {
        assert ResolveArg(p, HOT, w, d, args[0]) == Known({cap});
      }
      GrantCovers(extra);
      hide HotExtra;
      assert NameDiags(p, w, at, "on", false, extra) == [];
      assert ValueDiags(p, w, d, at, args[0]) == [];
      hide NameDiags, ValueDiags;
      assert args[..0] == [] && ArgsDiags(p, w, d, at, args) == [] + ValueDiags(p, w, d, at, args[0]);
    }

    lemma GrantCovers(extra: CapSet)
      requires SatisfiesRequired(grant, cap) && extra <= {cap}
      ensures IsSubsetOf(grant + extra, grant)
    {
      forall c | c in grant + extra
        ensures SatisfiesRequired(grant, c)
      {
        TreeOrder(c, c, c);
      }
    }

    lemma HandlerIsClean()
      requires Fits()
      ensures NoErrors(FunctionDiags(Prog(), Strict, HOT, DeclaredMap(Prog()), "on"))
    {
      Shape();
      SetsAreDeclared();
      var p := Prog();
      assert denied != {};
      assert lender.Function? ==> IsSubsetOf(lender.declared, Without(grant, denied));
      hide Prog, Fits, DeclaredMap;
      var w, d, at := DeclaredMap(p), Handler(), At(Without(grant, denied), true, true);
      assert NamedInEnforcement(p, d, name);
      assert HotExtra(p, HOT, w, d, name, [], false, true) == {};
      assert NameDiags(p, w, at, name, true, {}) == [];
      assert BodyDiags(p, HOT, w, d, at, Call(name, [])) == [];
      assert Entry(p, Strict, w, "on") == At(grant, true, false);
    }

    lemma IsAccepted()
      requires Fits()
      ensures Prog().WellFormed() && Accepts(Prog(), Strict, HOT, DeclaredMap(Prog()))
    {
      Shape();
      assert lender.Function? ==> NoErrors(FunctionDiags(Prog(), Strict, HOT, DeclaredMap(Prog()), name));
      hide Prog, Fits, FunctionDiags, DeclaredMap, NoErrors, IsHotSet;
      ParamIsHot();
      MainIsClean();
      HandlerIsClean();
      AcceptsIffFunctionsClean(Prog(), Strict, HOT, DeclaredMap(Prog()));
    }

    /** Up to the call inside the `deny!`. */
    function Escape(): seq<Stack> {
      var waiting := Frame("main", [], []);
      [[Frame("main", [], [Run(Main().body)])],
       [waiting, Frame("on", [BuiltinVal(builtin)], [Run(Handler().body)])],
       [waiting, Frame("on", [BuiltinVal(builtin)], [Run(Call(name, [])), EndDeny(denied)])]]
    }

    lemma MainCallsTheHandler()
      requires Fits()
      ensures Step(Prog(), Escape()[0], Escape()[1])
    {
      Shape();
      var p, s, s' := Prog(), Escape()[0], Escape()[1];
      hide Prog, Fits;
      var top := s[|s| - 1];
      var c := Main().body;
      assert top.cont == [Run(c)] && top.cont[1..] == [] && top.env == [];
      assert EvalArg(p, Main(), [], c.args[0]) == BuiltinVal(builtin);
      assert Bind(p, Main(), top.env, Handler(), c.args, 0) == [BuiltinVal(builtin)];
      assert Dispatch(p, Main(), top.env, c) == Enter("on", 0);
      assert s[..|s| - 1] == [];
      assert s' == s[..|s| - 1] + [top.(cont := [])] + [s'[1]];
    }

    lemma HandlerDenies()
      requires Fits()
      ensures Step(Prog(), Escape()[1], Escape()[2])
    {
      Shape();
      var p, s, s' := Prog(), Escape()[1], Escape()[2];
      hide Prog, Fits;
      var top := s[|s| - 1];
      assert top.cont == [Run(Handler().body)] && top.cont[1..] == [];
      assert s[..|s| - 1] == [s[0]];
      assert s'[1].cont == [Run(Call(name, [])), EndDeny(denied)] + top.cont[1..];
      assert s' == s[..|s| - 1] + [s'[1]];
    }

    lemma EscapeIsARun()
      requires Fits()
      ensures "main" in Prog().fns && IsRun(Prog(), Escape())
    {
      Shape();
      MainCallsTheHandler();
      HandlerDenies();
      assert |Escape()| == 3;
      assert Escape()[0] == InitialStack(Prog()) by {
        assert InitialStack(Prog())[0].env == [];
      }
      hide Step, Prog, Escape, Fits;
      forall k | 0 <= k < |Escape()| - 1
        ensures Step(Prog(), Escape()[k], Escape()[k + 1])
      {
        assert k == 0 || k == 1;
      }
    }

    lemma FiresInsideDeny()
      requires Fits()
      ensures Fires(Prog(), Escape()[2]) == Some(cap) && !Avoids(cap, ActiveDenies(Escape()[2]))
    {
      Shape();
      var p, s := Prog(), Escape()[2];
      assert !Avoids(cap, denied);
      hide Prog, Fits;
      var inside := s[1].cont;
      assert ParamIndex([Param(name, true)], name) == 0;
      assert EvalArg(p, Handler(), s[1].env, Ident(name)) == BuiltinVal(builtin);
      var rest := inside[1..];
      assert rest == [EndDeny(denied)] && rest[1..] == [];
      assert DeniedIn(rest) == denied + DeniedIn([]);
      assert DeniedIn(inside) == denied;
      assert s[|s| - 1] == s[1];
      var d :| d in denied && cap.Overlaps(d);
      assert d in ActiveDenies(s);
    }

    /** The program is accepted in Strict mode, and its run executes a denied operation inside
        the `deny!`; it is one that whole-run safety excludes. */
    lemma Escapes()
      requires Fits()
      ensures Prog().WellFormed() && Accepts(Prog(), Strict, HOT, DeclaredMap(Prog()))
      ensures "main" in Prog().fns && IsRun(Prog(), Escape())
      ensures Fires(Prog(), Escape()[2]) == Some(cap) && !Avoids(cap, ActiveDenies(Escape()[2]))
      ensures !Checked(Prog(), Strict, HOT, DeclaredMap(Prog())).HandlersCallOpenly()
    {
      IsAccepted();
      EscapeIsARun();
      FiresInsideDeny();
      IsExcluded();
    }

    lemma IsExcluded()
      requires Fits()
      ensures !Checked(Prog(), Strict, HOT, DeclaredMap(Prog())).HandlersCallOpenly()
    {
      Shape();
      var p := Prog();
      assert denied != {};
      hide Prog, Fits, DeclaredMap;
      var k := Checked(p, Strict, HOT, DeclaredMap(p));
      assert Handler().params[0] == Param(name, true);
      assert k.Shadowed(Handler(), name);
      assert !k.CallsOpenly(p.fns["on"], false, p.fns["on"].body);
    }
  }

  const HOT: set<Position> := {("on", 0)}
}
