/** Which parameters are "hot": called somewhere, directly or after being forwarded bare into
    another hot position (checker.rs `compute_hot_params`). Exact by chains of forwards. */
module HotParams {
  import opened Language

  /** Parameter `pos` of the function is fn-typed and called in its body. */
  predicate CalledDirectly(p: Program, pos: Position) {
    && pos.0 in p.fns
    && var d := p.fns[pos.0];
    && pos.1 < |d.params|
    && d.params[pos.1].fnTyped
    && exists k | 0 <= k < |Calls(d.body)| ::
         !Calls(d.body)[k].isMethod && Calls(d.body)[k].callee == d.params[pos.1].name
  }

  /** Call site `cs` hands `name` over, bare, at parameter position `target`. */
  predicate SiteForwards(p: Program, cs: CallSite, name: string, target: Position) {
    exists j | 0 <= j < |cs.args| ::
      cs.args[j] == Ident(name) && target == (cs.callee, j + Offset(p, cs.callee, cs.isMethod))
  }

  predicate Forwards(p: Program, pos: Position, target: Position) {
    && pos.0 in p.fns
    && var d := p.fns[pos.0];
    && pos.1 < |d.params|
    && d.params[pos.1].fnTyped
    && exists k | 0 <= k < |Calls(d.body)| ::
         SiteForwards(p, Calls(d.body)[k], d.params[pos.1].name, target)
  }

  /** A chain of bare forwards that ends in a direct call. */
  predicate IsChain(p: Program, chain: seq<Position>) {
    && |chain| > 0
    && CalledDirectly(p, chain[|chain| - 1])
    && forall k | 0 <= k < |chain| - 1 :: Forwards(p, chain[k], chain[k + 1])
  }

  ghost predicate Hot(p: Program, pos: Position) {
    exists chain :: IsChain(p, chain) && chain[0] == pos
  }

  lemma ForwardToHotIsHot(p: Program, pos: Position, target: Position)
    requires Forwards(p, pos, target) && Hot(p, target)
    ensures Hot(p, pos)
  {
    var chain :| IsChain(p, chain) && chain[0] == target;
    var longer := [pos] + chain;
    assert forall k | 0 <= k < |longer| - 1 :: Forwards(p, longer[k], longer[k + 1]) by {
      forall k | 0 <= k < |longer| - 1
        ensures Forwards(p, longer[k], longer[k + 1])
      {
        if k > 0 {
          assert longer[k] == chain[k - 1] && longer[k + 1] == chain[k];
        }
      }
    }
    assert IsChain(p, longer) && longer[0] == pos;
  }

  lemma DirectIsHot(p: Program, pos: Position)
    requires CalledDirectly(p, pos)
    ensures Hot(p, pos)
  {
    assert IsChain(p, [pos]) && [pos][0] == pos;
  }

  /** A set of positions that contains every direct call and is closed under forwarding. */
  ghost predicate Closed(p: Program, hot: set<Position>) {
    && (forall pos | CalledDirectly(p, pos) :: pos in hot)
    && (forall pos, target | target in hot && Forwards(p, pos, target) :: pos in hot)
  }

  /** Hot positions lie in every closed set: the hot set is the least fixed point. */
  lemma {:induction false} HotIsLeast(p: Program, hot: set<Position>, chain: seq<Position>)
    requires Closed(p, hot) && IsChain(p, chain)
    ensures chain[0] in hot
  {
    if |chain| > 1 {
      var rest := chain[1..];
      assert IsChain(p, rest) by {
        forall k | 0 <= k < |rest| - 1
          ensures Forwards(p, rest[k], rest[k + 1])
        {
          assert Forwards(p, chain[k + 1], chain[k + 2]);
        }
      }
      HotIsLeast(p, hot, rest);
      assert Forwards(p, chain[0], chain[1]);
    }
  }

  /** `hot` is exactly the hot set. */
  ghost predicate IsHotSet(p: Program, hot: set<Position>) {
    forall pos :: pos in hot <==> Hot(p, pos)
  }

  lemma SoundAndClosedIsExact(p: Program, hot: set<Position>)
    requires Closed(p, hot)
    requires forall pos | pos in hot :: Hot(p, pos)
    ensures IsHotSet(p, hot)
  {
    forall pos | Hot(p, pos)
      ensures pos in hot
    {
      var chain :| IsChain(p, chain) && chain[0] == pos;
      HotIsLeast(p, hot, chain);
    }
  }

  lemma HotSetIsClosed(p: Program, hot: set<Position>)
    requires IsHotSet(p, hot)
    ensures Closed(p, hot)
  {
    forall pos | CalledDirectly(p, pos)
      ensures pos in hot
    {
      DirectIsHot(p, pos);
    }
    forall pos, target | target in hot && Forwards(p, pos, target)
      ensures pos in hot
    {
      ForwardToHotIsHot(p, pos, target);
    }
  }

  // ----- the computation -----

  /** Every parameter position of the program: the bound the propagation grows towards. */
  function Positions(p: Program): set<Position> {
    set f, i | f in p.fns && 0 <= i < |p.fns[f].params| :: (f, i)
  }

  /** Positions of the program, all of them hot. */
  ghost predicate Sound(p: Program, hot: set<Position>) {
    hot <= Positions(p) && forall pos | pos in hot :: Hot(p, pos)
  }

  lemma SoundAdds(p: Program, hot: set<Position>, f: string, i: nat)
    requires Sound(p, hot) && f in p.fns && i < |p.fns[f].params| && Hot(p, (f, i))
    ensures Sound(p, hot + {(f, i)})
  {
    assert (f, i) in Positions(p);
  }

  /** Seed: the parameters of `f` called in its own body. */
  method SeedFunction(p: Program, f: string, hot: set<Position>) returns (out: set<Position>)
    requires f in p.fns && Sound(p, hot)
    ensures hot <= out && Sound(p, out)
    ensures forall i: nat | CalledDirectly(p, (f, i)) :: (f, i) in out
  {
    hide Sound, Hot;
    out := hot;
    var d := p.fns[f];
    var calls := Calls(d.body);
    for i := 0 to |d.params|
      invariant hot <= out && Sound(p, out)
      invariant forall k: nat | k < i && CalledDirectly(p, (f, k)) :: (f, k) in out
    {
      if d.params[i].fnTyped
         && exists k | 0 <= k < |calls| :: !calls[k].isMethod && calls[k].callee == d.params[i].name {
        DirectIsHot(p, (f, i));
        SoundAdds(p, out, f, i);
        out := out + {(f, i)};
      }
    }
  }

  /** One pass over the arguments of a call site: is `name` handed to a hot position? */
  method SiteReachesHot(p: Program, cs: CallSite, name: string, hot: set<Position>) returns (found: bool)
    ensures found <==> exists target | target in hot :: SiteForwards(p, cs, name, target)
  {
    found := false;
    var offset := Offset(p, cs.callee, cs.isMethod);
    for j := 0 to |cs.args|
      invariant found ==> exists target | target in hot :: SiteForwards(p, cs, name, target)
      invariant !found ==> forall k | 0 <= k < j && cs.args[k] == Ident(name) :: (cs.callee, k + offset) !in hot
    {
      if cs.args[j] == Ident(name) && (cs.callee, j + offset) in hot {
        found := true;
        assert SiteForwards(p, cs, name, (cs.callee, j + offset));
      }
    }
  }

  /** Nothing that `pos` forwards to is hot, unless `pos` is. */
  ghost predicate SettledAt(p: Program, hot: set<Position>, pos: Position) {
    forall target | target in hot && Forwards(p, pos, target) :: pos in hot
  }

  /** The call sites of `f`, searched for forwards of its parameter `i`. */
  method SweepParam(p: Program, f: string, i: nat, hot: set<Position>) returns (out: set<Position>)
    requires f in p.fns && i < |p.fns[f].params| && p.fns[f].params[i].fnTyped && Sound(p, hot)
    ensures hot <= out && Sound(p, out)
    ensures out == hot ==> SettledAt(p, hot, (f, i))
  {
    hide Sound, Hot, SiteForwards;
    out := hot;
    var name, calls := p.fns[f].params[i].name, Calls(p.fns[f].body);
    for c := 0 to |calls|
      invariant hot <= out && Sound(p, out)
      invariant out == hot ==> forall k, target | 0 <= k < c && target in hot
                && SiteForwards(p, calls[k], name, target) :: (f, i) in hot
    {
      var found := SiteReachesHot(p, calls[c], name, out);
      if found {
        var target :| target in out && SiteForwards(p, calls[c], name, target);
        assert Forwards(p, (f, i), target);
        SoundHas(p, out, target);
        ForwardToHotIsHot(p, (f, i), target);
        SoundAdds(p, out, f, i);
        out := out + {(f, i)};
      }
    }
  }

  lemma SoundHas(p: Program, hot: set<Position>, pos: Position)
    requires Sound(p, hot) && pos in hot
    ensures Hot(p, pos)
  {
  }

  lemma UntypedForwardsNothing(p: Program, hot: set<Position>, f: string, i: nat)
    requires f in p.fns && (i < |p.fns[f].params| ==> !p.fns[f].params[i].fnTyped)
    ensures SettledAt(p, hot, (f, i))
  {
  }

  /** One pass of the propagation over the parameters and call sites of `f`. */
  method SweepFunction(p: Program, f: string, hot: set<Position>) returns (out: set<Position>)
    requires f in p.fns && Sound(p, hot)
    ensures hot <= out && Sound(p, out)
    ensures out == hot ==> forall i: nat :: SettledAt(p, hot, (f, i))
  {
    hide Sound, SettledAt;
    out := hot;
    var d := p.fns[f];
    for i := 0 to |d.params|
      invariant hot <= out && Sound(p, out)
      invariant out == hot ==> forall k: nat | k < i :: SettledAt(p, hot, (f, k))
    {
      if d.params[i].fnTyped {
        out := SweepParam(p, f, i, out);
      } else {
        UntypedForwardsNothing(p, hot, f, i);
      }
    }
    forall i: nat | i >= |d.params|
      ensures SettledAt(p, hot, (f, i))
    {
      UntypedForwardsNothing(p, hot, f, i);
    }
  }

  ghost predicate Seeded(p: Program, hot: set<Position>, n: nat)
    requires n <= |p.order|
  {
    forall k, i: nat | 0 <= k < n && CalledDirectly(p, (p.order[k], i)) :: (p.order[k], i) in hot
  }

  ghost predicate Settled(p: Program, hot: set<Position>, n: nat)
    requires n <= |p.order|
  {
    forall k, i: nat | 0 <= k < n :: SettledAt(p, hot, (p.order[k], i))
  }

  lemma SeedsRemain(p: Program, hot: set<Position>, more: set<Position>, n: nat)
    requires n <= |p.order| && Seeded(p, hot, n) && hot <= more
    ensures Seeded(p, more, n)
  {
  }

  /** Seeded and settled for every declaration: the hot set. */
  lemma SettledIsExact(p: Program, hot: set<Position>)
    requires p.WellFormed() && Sound(p, hot) && Seeded(p, hot, |p.order|) && Settled(p, hot, |p.order|)
    ensures IsHotSet(p, hot)
  {
    hide Hot;
    forall pos | CalledDirectly(p, pos)
      ensures pos in hot
    {
      var k :| 0 <= k < |p.order| && p.order[k] == pos.0;
      assert CalledDirectly(p, (p.order[k], pos.1));
    }
    forall pos, target | target in hot && Forwards(p, pos, target)
      ensures pos in hot
    {
      var k :| 0 <= k < |p.order| && p.order[k] == pos.0;
      assert SettledAt(p, hot, (p.order[k], pos.1));
    }
    SoundAndClosedIsExact(p, hot);
  }

  lemma GrowingLeavesFewer(p: Program, before: set<Position>, hot: set<Position>)
    requires Sound(p, hot) && before <= hot && hot != before
    ensures Positions(p) - hot < Positions(p) - before
  {
    var x :| x in hot && x !in before;
    assert x in Positions(p) - before && x !in Positions(p) - hot;
  }

  /** The whole pass: seeds, then sweeps until nothing changes. */
  method ComputeHotParams(p: Program) returns (hot: set<Position>)
    requires p.WellFormed()
    ensures IsHotSet(p, hot)
  {
    hot := {};
    for n := 0 to |p.order|
      invariant Sound(p, hot) && Seeded(p, hot, n)
    {
      hot := SeedFunction(p, p.order[n], hot);
    }
    hide Sound, Seeded, CalledDirectly, SettledAt, IsHotSet, Positions;
    var changed := true;
    while changed
      invariant Sound(p, hot) && Seeded(p, hot, |p.order|)
      invariant !changed ==> Settled(p, hot, |p.order|)
      decreases Positions(p) - hot, changed
    {
      var before := hot;
      for n := 0 to |p.order|
        invariant before <= hot && Sound(p, hot) && Seeded(p, hot, |p.order|)
        invariant hot == before ==> Settled(p, hot, n)
      {
        var swept := SweepFunction(p, p.order[n], hot);
        SeedsRemain(p, hot, swept, |p.order|);
        hot := swept;
      }
      changed := hot != before;
      if changed {
        GrowingLeavesFewer(p, before, hot);
      }
    }
    SettledIsExact(p, hot);
  }
}
