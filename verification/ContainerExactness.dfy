/** Snapshots of containers claim no more than what was put there (checker.rs
    `build_local_container_lits`, `rebuild_container_write`). Bodies of literals, aliases, pushes,
    index writes and field writes keep every container tracked, and a path resolves to the union of
    the capabilities of the closures put at it. */
module ContainerExactness {
  import opened Wrappers
  import opened Capabilities
  import opened Inference
  import opened Containers

  // ----- what lies in a literal -----

  /** The literal names nothing, and what is not resolved in it is no container. */
  predicate SelfContained(e: Expr)
    decreases e
  {
    match e
    case Closure(_) => true
    case Unresolved(v) => v.CloVal? || v.PlainVal?
    case Var(_) => false
    case StructLit(fs) => forall i | 0 <= i < |fs| :: SelfContained(fs[i].value)
    case ArrayLit(es) => forall i | 0 <= i < |es| :: SelfContained(es[i])
    case MapLit(fs) => forall i | 0 <= i < |fs| :: SelfContained(fs[i].value)
  }

  /** A closure of authority `c` lies in the literal along `path`. */
  ghost predicate Lies(e: Expr, path: Path, c: CapSet)
    decreases path
  {
    if path == [] then e == Closure(c) || e == Unresolved(CloVal(c))
    else
      match e
      case StructLit(fs) =>
        && path[0].Field? && FindEntry(fs, path[0].name) < |fs|
        && Lies(fs[FindEntry(fs, path[0].name)].value, path[1..], c)
      case ArrayLit(es) => path[0] == Index && exists i | 0 <= i < |es| :: Lies(es[i], path[1..], c)
      case MapLit(fs) => path[0] == Index && exists i | 0 <= i < |fs| :: Lies(fs[i].value, path[1..], c)
      case _ => false
  }

  /** Wherever `path` leads in the literal, it leads to a closure that is resolved on the spot. */
  ghost predicate EndsInClosures(e: Expr, path: Path)
    decreases path
  {
    if path == [] then e.Closure?
    else
      match e
      case StructLit(fs) =>
        && path[0].Field? && FindEntry(fs, path[0].name) < |fs|
        && EndsInClosures(fs[FindEntry(fs, path[0].name)].value, path[1..])
      case ArrayLit(es) => path[0] == Index && forall i | 0 <= i < |es| :: EndsInClosures(es[i], path[1..])
      case MapLit(fs) => path[0] == Index && forall i | 0 <= i < |fs| :: EndsInClosures(fs[i].value, path[1..])
      case _ => false
  }

  ghost predicate SomeLies(es: seq<Expr>, path: Path, c: CapSet) {
    exists i | 0 <= i < |es| :: Lies(es[i], path, c)
  }

  ghost predicate AllEnd(es: seq<Expr>, path: Path) {
    forall i | 0 <= i < |es| :: EndsInClosures(es[i], path)
  }

  lemma ArrayLies(es: seq<Expr>, path: Path)
    requires path != [] && path[0] == Index
    ensures forall c :: Lies(ArrayLit(es), path, c) <==> SomeLies(es, path[1..], c)
    ensures EndsInClosures(ArrayLit(es), path) <==> AllEnd(es, path[1..])
  {
  }

  lemma StructLies(fs: seq<Entry>, path: Path)
    requires path != [] && path[0].Field? && FindEntry(fs, path[0].name) < |fs|
    ensures var u := fs[FindEntry(fs, path[0].name)].value;
            && (forall c :: Lies(StructLit(fs), path, c) <==> Lies(u, path[1..], c))
            && (EndsInClosures(StructLit(fs), path) <==> EndsInClosures(u, path[1..]))
  {
  }

  /** No part of the literal lies that way. */
  lemma NothingLies(lit: Expr, path: Path)
    requires path != []
    requires || (lit.StructLit? && (path[0] == Index || FindEntry(lit.fields, path[0].name) == |lit.fields|))
             || ((lit.ArrayLit? || lit.MapLit?) && path[0].Field?)
    ensures (forall c :: !Lies(lit, path, c)) && !EndsInClosures(lit, path)
  {
  }

  lemma NothingLiesHere(lit: Expr, lit': Expr)
    requires IsLiteral(lit) && IsLiteral(lit')
    ensures forall c :: !Lies(lit, [], c) && !Lies(lit', [], c)
    ensures !EndsInClosures(lit, []) && !EndsInClosures(lit', [])
  {
  }

  lemma MapLies(fs: seq<Entry>, path: Path)
    requires path != [] && path[0] == Index
    ensures forall c :: Lies(MapLit(fs), path, c) <==> SomeLies(Values(fs), path[1..], c)
    ensures EndsInClosures(MapLit(fs), path) <==> AllEnd(Values(fs), path[1..])
  {
    var es := Values(fs);
    assert forall i | 0 <= i < |fs| :: es[i] == fs[i].value;
    forall c
      ensures Lies(MapLit(fs), path, c) <==> SomeLies(es, path[1..], c)
    {
      if i :| 0 <= i < |fs| && Lies(fs[i].value, path[1..], c) {
        assert Lies(es[i], path[1..], c);
      }
    }
  }

  ghost predicate IsUnionOf(s: CapSet, e: Expr, path: Path) {
    forall x :: x in s <==> exists c :: Lies(e, path, c) && x in c
  }

  lemma {:induction false} ResolveIsWhatLies(m: Lits, e: Expr, path: Path)
    requires Tracks(m) && SelfContained(e)
    ensures Resolve(m, e, path).Known? <==> EndsInClosures(e, path)
    ensures Resolve(m, e, path).Known? ==> IsUnionOf(Resolve(m, e, path).caps, e, path)
    decreases |path|, 0
  {
    if path == [] {
      if e.Closure? {
        assert Lies(e, path, e.caps);
      }
    } else {
      match e
      case StructLit(fs) =>
        if path[0].Field? && FindEntry(fs, path[0].name) < |fs| {
          var u := fs[FindEntry(fs, path[0].name)].value;
          ResolveIsWhatLies(m, u, path[1..]);
          assert forall c :: Lies(e, path, c) <==> Lies(u, path[1..], c);
        }
      case ArrayLit(es) =>
        EachIsWhatLies(m, es, path[1..]);
        if path[0] == Index {
          ArrayLies(es, path);
        }
      case MapLit(fs) =>
        EachIsWhatLies(m, Values(fs), path[1..]);
        if path[0] == Index {
          MapLies(fs, path);
        }
      case _ =>
    }
  }

  lemma {:induction false} EachIsWhatLies(m: Lits, es: seq<Expr>, path: Path)
    requires Tracks(m) && forall i | 0 <= i < |es| :: SelfContained(es[i])
    ensures ResolveAll(m, es, path).Known? <==> AllEnd(es, path)
    ensures ResolveAll(m, es, path).Known? ==>
              forall x :: x in ResolveAll(m, es, path).caps <==> exists c :: SomeLies(es, path, c) && x in c
    decreases |path|, 1, |es|
  {
    hide Lies, EndsInClosures, Resolve, SelfContained;
    if es != [] {
      var init, last := es[..|es| - 1], es[|es| - 1];
      EachIsWhatLies(m, init, path);
      ResolveIsWhatLies(m, last, path);
      assert forall i | 0 <= i < |init| :: init[i] == es[i];
      assert es == init + [last];
      assert forall c :: SomeLies(es, path, c) <==> SomeLies(init, path, c) || Lies(last, path, c);
    }
  }

  // ----- what a write does to a literal -----

  /** `path` goes through the place `p` + `leaf`. */
  predicate Under(p: Path, leaf: PathStep, path: Path) {
    |p| < |path| && path[..|p|] == p && path[|p|] == leaf
  }

  lemma UnderStep(p: Path, leaf: PathStep, path: Path)
    requires p != []
    ensures Under(p, leaf, path) <==> path != [] && path[0] == p[0] && Under(p[1..], leaf, path[1..])
    ensures Under(p, leaf, path) ==> path[|p| + 1..] == path[1..][|p[1..]| + 1..]
  {
    if path != [] && |p| < |path| {
      assert path[..|p|] == [path[0]] + path[1..][..|p| - 1];
      assert p == [p[0]] + p[1..];
    }
  }

  /** An index or key write adds the new value at its place. */
  ghost predicate LiesAfterAppend(lit: Expr, p: Path, e: Expr, lit': Expr, path: Path) {
    && (forall c :: Lies(lit', path, c) <==>
                      Lies(lit, path, c) || (Under(p, Index, path) && Lies(e, path[|p| + 1..], c)))
    && (EndsInClosures(lit', path) <==>
          EndsInClosures(lit, path) && (Under(p, Index, path) ==> EndsInClosures(e, path[|p| + 1..])))
  }

  lemma AppendHere(lit: Expr, key: string, e: Expr, path: Path)
    requires Rebuild(lit, [], Index, key, e).Some?
    ensures LiesAfterAppend(lit, [], e, Rebuild(lit, [], Index, key, e).value, path)
  {
    var lit' := Rebuild(lit, [], Index, key, e).value;
    if path != [] && path[0] == Index {
      assert path[..0] == [];
      if lit.ArrayLit? {
        var es, es' := lit.elements, lit'.elements;
        assert es' == es + [e] && es'[|es|] == e && forall i | 0 <= i < |es| :: es'[i] == es[i];
      } else {
        var fs, fs' := lit.entries, lit'.entries;
        assert fs' == fs + [Entry(key, e)] && fs'[|fs|].value == e && forall i | 0 <= i < |fs| :: fs'[i] == fs[i];
      }
    }
  }

  lemma {:induction false} AppendLies(lit: Expr, p: Path, key: string, e: Expr, path: Path)
    requires Rebuild(lit, p, Index, key, e).Some?
    ensures LiesAfterAppend(lit, p, e, Rebuild(lit, p, Index, key, e).value, path)
    decreases |p|, 0
  {
    hide Under, Lies, EndsInClosures;
    var lit' := Rebuild(lit, p, Index, key, e).value;
    if p == [] {
      AppendHere(lit, key, e, path);
    } else {
      UnderStep(p, Index, path);
      if path == [] {
        NothingLiesHere(lit, lit');
      } else if path[0] != p[0] {
        AppendApart(lit, p, key, e, path);
      } else {
        match lit
        case StructLit(fs) =>
          var i := FindEntry(fs, p[0].name);
          AppendLies(fs[i].value, p[1..], key, e, path[1..]);
          SameFindEntry(fs, lit'.fields, p[0].name);
          StructLies(fs, path);
          StructLies(lit'.fields, path);
        case ArrayLit(es) =>
          EachAppends(es, p[1..], key, e, path[1..]);
          ArrayLies(es, path);
          ArrayLies(lit'.elements, path);
        case MapLit(fs) =>
          EachAppends(Values(fs), p[1..], key, e, path[1..]);
          assert Values(lit'.entries) == RebuildEach(Values(fs), p[1..], Index, key, e);
          MapLies(fs, path);
          MapLies(lit'.entries, path);
      }
    }
  }

  /** Elsewhere nothing changes. */
  lemma AppendApart(lit: Expr, p: Path, key: string, e: Expr, path: Path)
    requires p != [] && path != [] && path[0] != p[0] && Rebuild(lit, p, Index, key, e).Some?
    ensures LiesAfterAppend(lit, p, e, Rebuild(lit, p, Index, key, e).value, path)
  {
    var lit' := Rebuild(lit, p, Index, key, e).value;
    UnderStep(p, Index, path);
    hide Under, Lies, EndsInClosures;
    if lit.StructLit? && path[0].Field? {
      var fs, fs' := lit.fields, lit'.fields;
      SameFindEntry(fs, fs', path[0].name);
      var i, k := FindEntry(fs, p[0].name), FindEntry(fs, path[0].name);
      if k < |fs| {
        assert k != i && fs'[k] == fs[k];
        StructLies(fs, path);
        StructLies(fs', path);
      } else {
        NothingLies(lit, path);
        NothingLies(lit', path);
      }
    } else {
      NothingLies(lit, path);
      NothingLies(lit', path);
    }
  }

  lemma {:induction false} EachAppends(es: seq<Expr>, p: Path, key: string, e: Expr, path: Path)
    requires AnyRebuilds(es, p, Index, key, e)
    ensures var es' := RebuildEach(es, p, Index, key, e);
            && (forall c :: SomeLies(es', path, c) <==>
                  SomeLies(es, path, c) || (Under(p, Index, path) && Lies(e, path[|p| + 1..], c)))
            && (AllEnd(es', path) <==>
                  AllEnd(es, path) && (Under(p, Index, path) ==> EndsInClosures(e, path[|p| + 1..])))
    decreases |p|, 1
  {
    var es' := RebuildEach(es, p, Index, key, e);
    forall i | 0 <= i < |es| && Rebuild(es[i], p, Index, key, e).Some?
      ensures LiesAfterAppend(es[i], p, e, es'[i], path)
    {
      AppendLies(es[i], p, key, e, path);
    }
    var some :| 0 <= some < |es| && Rebuild(es[some], p, Index, key, e).Some?;
    assert forall i | 0 <= i < |es| :: es'[i] == es[i] || LiesAfterAppend(es[i], p, e, es'[i], path);
    hide RebuildEach, AnyRebuilds, Rebuild;
    EachAfterAppend(es, es', some, p, e, path);
  }

  lemma EachAfterAppend(es: seq<Expr>, es': seq<Expr>, some: nat, p: Path, e: Expr, path: Path)
    requires |es'| == |es| && some < |es| && LiesAfterAppend(es[some], p, e, es'[some], path)
    requires forall i | 0 <= i < |es| :: es'[i] == es[i] || LiesAfterAppend(es[i], p, e, es'[i], path)
    ensures forall c :: SomeLies(es', path, c) <==>
              SomeLies(es, path, c) || (Under(p, Index, path) && Lies(e, path[|p| + 1..], c))
    ensures AllEnd(es', path) <==> AllEnd(es, path) && (Under(p, Index, path) ==> EndsInClosures(e, path[|p| + 1..]))
  {
    hide Lies, EndsInClosures;
    forall c
      ensures SomeLies(es', path, c)
              <==> SomeLies(es, path, c) || (Under(p, Index, path) && Lies(e, path[|p| + 1..], c))
    {
      if i :| 0 <= i < |es| && Lies(es[i], path, c) {
        assert Lies(es'[i], path, c);
      }
      if Under(p, Index, path) && Lies(e, path[|p| + 1..], c) {
        assert Lies(es'[some], path, c);
      }
    }
  }

  predicate AllFields(p: Path) {
    forall k | 0 <= k < |p| :: p[k].Field?
  }

  /** A field write through fields replaces what lies at its place. */
  lemma {:induction false} ReplaceLies(lit: Expr, p: Path, f: string, e: Expr, path: Path, c: CapSet)
    requires Rebuild(lit, p, Field(f), "", e).Some? && AllFields(p)
    ensures var lit' := Rebuild(lit, p, Field(f), "", e).value;
            && (Lies(lit', path, c) <==> if Under(p, Field(f), path) then Lies(e, path[|p| + 1..], c)
                else Lies(lit, path, c))
            && (EndsInClosures(lit', path) <==>
                  if Under(p, Field(f), path) then EndsInClosures(e, path[|p| + 1..]) else EndsInClosures(lit, path))
    decreases |p|
  {
    hide Under, Lies, EndsInClosures;
    var lit' := Rebuild(lit, p, Field(f), "", e).value;
    if p == [] {
      ReplaceHere(lit, f, e, path, c);
    } else {
      var fs, fs' := lit.fields, lit'.fields;
      var i := FindEntry(fs, p[0].name);
      UnderStep(p, Field(f), path);
      if path == [] {
        NothingLiesHere(lit, lit');
      } else if path[0] == p[0] {
        SameFindEntry(fs, fs', path[0].name);
        StructLies(fs, path);
        StructLies(fs', path);
        ReplaceLies(fs[i].value, p[1..], f, e, path[1..], c);
      } else {
        hide Rebuild;
        StructApart(fs, fs', i, path);
      }
    }
  }

  /** Along another field nothing changes. */
  lemma StructApart(fs: seq<Entry>, fs': seq<Entry>, i: nat, path: Path)
    requires i < |fs| && |fs'| == |fs| && fs'[i].key == fs[i].key
    requires forall k | 0 <= k < |fs| && k != i :: fs'[k] == fs[k]
    requires path != [] && path[0] != Field(fs[i].key)
    ensures forall c :: Lies(StructLit(fs'), path, c) <==> Lies(StructLit(fs), path, c)
    ensures EndsInClosures(StructLit(fs'), path) <==> EndsInClosures(StructLit(fs), path)
  {
    hide Lies, EndsInClosures;
    if path[0].Field? {
      SameFindEntry(fs, fs', path[0].name);
      if FindEntry(fs, path[0].name) < |fs| {
        StructLies(fs, path);
        StructLies(fs', path);
      } else {
        NothingLies(StructLit(fs), path);
        NothingLies(StructLit(fs'), path);
      }
    } else {
      NothingLies(StructLit(fs), path);
      NothingLies(StructLit(fs'), path);
    }
  }

  lemma ReplaceHere(lit: Expr, f: string, e: Expr, path: Path, c: CapSet)
    requires lit.StructLit?
    ensures Rebuild(lit, [], Field(f), "", e).Some?
    ensures var lit' := Rebuild(lit, [], Field(f), "", e).value;
            && (Lies(lit', path, c) <==> if Under([], Field(f), path) then Lies(e, path[1..], c)
                else Lies(lit, path, c))
            && (EndsInClosures(lit', path) <==>
                  if Under([], Field(f), path) then EndsInClosures(e, path[1..]) else EndsInClosures(lit, path))
  {
    var lit' := Rebuild(lit, [], Field(f), "", e).value;
    var fs, fs' := lit.fields, lit'.fields;
    assert path[..0] == [] && (Under([], Field(f), path) <==> path != [] && path[0] == Field(f));
    hide Under, Lies, EndsInClosures;
    if path == [] {
      NothingLiesHere(lit, lit');
    } else if path[0] == Field(f) {
      var i := FindEntry(fs, f);
      assert fs'[i] == Entry(f, e) && FindEntry(fs', f) == i;
      StructLies(fs', path);
    } else if path[0] == Index {
      NothingLies(lit, path);
      NothingLies(lit', path);
    } else {
      OtherFieldSame(fs, f, path[0].name, e);
      if FindEntry(fs, path[0].name) < |fs| {
        StructLies(fs, path);
        StructLies(fs', path);
      } else {
        NothingLies(lit, path);
        NothingLies(lit', path);
      }
    }
  }

  // ----- values mirror their literals -----

  /** Every part of the value has its part in the literal. */
  ghost predicate Mirrors(e: Expr, v: Val)
    decreases e, 1
  {
    match e
    case Closure(c) => v == CloVal(c)
    case Unresolved(w) => v == w
    case Var(_) => false
    case StructLit(fs) =>
      && v.StructVal?
      && forall f | f in v.fields :: FindEntry(fs, f) < |fs| && Mirrors(fs[FindEntry(fs, f)].value, v.fields[f])
    case ArrayLit(_) => v.ArrayVal? && forall j | 0 <= j < |v.elements| :: SomeMirrors(e, v.elements[j])
    case MapLit(_) => v.MapVal? && forall k | k in v.entries :: SomeMirrors(e, v.entries[k])
  }

  /** Some element of the literal has this value. */
  ghost predicate SomeMirrors(e: Expr, u: Val)
    decreases e, 0
  {
    match e
    case ArrayLit(es) => exists i | 0 <= i < |es| :: Mirrors(es[i], u)
    case MapLit(fs) => exists i | 0 <= i < |fs| :: Mirrors(fs[i].value, u)
    case _ => false
  }

  lemma {:induction false} EvalMirrors(s: Store, e: Expr)
    requires SelfContained(e) && FieldsOnce(e)
    ensures Mirrors(e, Eval(s, e))
    decreases e
  {
    match e
    case Closure(_) =>
    case Unresolved(_) =>
    case StructLit(fs) =>
      forall f | f in EvalEntries(s, fs)
        ensures FindEntry(fs, f) < |fs| && Mirrors(fs[FindEntry(fs, f)].value, EvalEntries(s, fs)[f])
      {
        var i := EvalEntriesHas(s, fs, f);
        assert FindEntry(fs, f) == i;
        EvalMirrors(s, fs[i].value);
      }
    case ArrayLit(es) =>
      var v := Eval(s, e);
      forall j | 0 <= j < |v.elements|
        ensures SomeMirrors(e, v.elements[j])
      {
        EvalMirrors(s, es[j]);
        assert Mirrors(es[j], v.elements[j]);
      }
    case MapLit(fs) =>
      forall k | k in EvalEntries(s, fs)
        ensures SomeMirrors(e, EvalEntries(s, fs)[k])
      {
        var i := EvalEntriesHas(s, fs, k);
        EvalMirrors(s, fs[i].value);
      }
  }

  lemma {:induction false} ExtendedMirrors(e: Expr, e': Expr, v: Val)
    requires Extends(e, e') && Mirrors(e, v)
    ensures Mirrors(e', v)
    decreases e
  {
    if e != e' {
      hide FindEntry;
      match e
      case ArrayLit(es) =>
        forall j | 0 <= j < |v.elements|
          ensures SomeMirrors(e', v.elements[j])
        {
          assert SomeMirrors(e, v.elements[j]);
          var i :| 0 <= i < |es| && Mirrors(es[i], v.elements[j]);
          ExtendedMirrors(es[i], e'.elements[i], v.elements[j]);
          assert Mirrors(e'.elements[i], v.elements[j]);
        }
      case MapLit(fs) =>
        forall k | k in v.entries
          ensures SomeMirrors(e', v.entries[k])
        {
          assert SomeMirrors(e, v.entries[k]);
          var i :| 0 <= i < |fs| && Mirrors(fs[i].value, v.entries[k]);
          ExtendedMirrors(fs[i].value, e'.entries[i].value, v.entries[k]);
        }
      case StructLit(fs) =>
        forall f | f in v.fields
          ensures FindEntry(e'.fields, f) < |e'.fields|
                  && Mirrors(e'.fields[FindEntry(e'.fields, f)].value, v.fields[f])
        {
          SameFindEntry(fs, e'.fields, f);
          ExtendedMirrors(fs[FindEntry(fs, f)].value, e'.fields[FindEntry(fs, f)].value, v.fields[f]);
        }
    }
  }

  lemma FieldHereMirrors(fs: seq<Entry>, v: Val, f: string, e: Expr, u: Val)
    requires Mirrors(StructLit(fs), v) && Mirrors(e, u)
    ensures var fs' := Rebuild(StructLit(fs), [], Field(f), "", e);
            fs'.Some? && Mirrors(fs'.value, StructVal(v.fields[f := u]))
  {
    var fs' := Rebuild(StructLit(fs), [], Field(f), "", e).value.fields;
    var i := FindEntry(fs, f);
    assert fs'[i] == Entry(f, e) && FindEntry(fs', f) == i;
    forall g | g in v.fields[f := u]
      ensures FindEntry(fs', g) < |fs'| && Mirrors(fs'[FindEntry(fs', g)].value, v.fields[f := u][g])
    {
      if g != f {
        OtherFieldSame(fs, f, g, e);
      }
    }
  }

  lemma ElementHereMirrors(es: seq<Expr>, v: Val, i: nat, e: Expr, u: Val)
    requires Mirrors(ArrayLit(es), v) && Mirrors(e, u) && i < |v.elements|
    ensures Mirrors(ArrayLit(es + [e]), ArrayVal(v.elements[i := u]))
  {
    var es', vs' := es + [e], v.elements[i := u];
    assert es'[|es|] == e && forall k | 0 <= k < |es| :: es'[k] == es[k];
    forall j | 0 <= j < |vs'|
      ensures SomeMirrors(ArrayLit(es'), vs'[j])
    {
      assert Mirrors(es'[|es|], u);
      if j != i {
        assert SomeMirrors(ArrayLit(es), v.elements[j]);
        var k :| 0 <= k < |es| && Mirrors(es[k], v.elements[j]);
        assert Mirrors(es'[k], vs'[j]);
      }
    }
  }

  lemma EntryHereMirrors(fs: seq<Entry>, v: Val, key: string, e: Expr, u: Val)
    requires Mirrors(MapLit(fs), v) && Mirrors(e, u)
    ensures Mirrors(MapLit(fs + [Entry(key, e)]), MapVal(v.entries[key := u]))
  {
    var fs', vs' := fs + [Entry(key, e)], v.entries[key := u];
    assert fs'[|fs|].value == e && forall k | 0 <= k < |fs| :: fs'[k] == fs[k];
    forall l | l in vs'
      ensures SomeMirrors(MapLit(fs'), vs'[l])
    {
      assert Mirrors(fs'[|fs|].value, u);
      if l != key {
        assert SomeMirrors(MapLit(fs), v.entries[l]);
        var k :| 0 <= k < |fs| && Mirrors(fs[k].value, v.entries[l]);
        assert Mirrors(fs'[k].value, vs'[l]);
      }
    }
  }

  lemma WriteHereMirrors(lit: Expr, v: Val, leaf: RunStep, e: Expr, u: Val)
    requires Mirrors(lit, v) && SelfContained(lit) && Mirrors(e, u) && Replace(v, leaf, u).Some?
    ensures Rebuild(lit, [], Erase(leaf), LeafKey(leaf), e).Some?
    ensures Mirrors(Rebuild(lit, [], Erase(leaf), LeafKey(leaf), e).value, Replace(v, leaf, u).value)
  {
    match leaf
    case AtField(f) => FieldHereMirrors(lit.fields, v, f, e, u);
    case AtIndex(i) => ElementHereMirrors(lit.elements, v, i, e, u);
    case AtKey(key) => EntryHereMirrors(lit.entries, v, key, e, u);
  }

  lemma WriteSteps(v: Val, p: seq<RunStep>, leaf: RunStep, u: Val) returns (inner: Val, updated: Val)
    requires p != [] && WriteVal(v, p, leaf, u).Some?
    ensures Component(v, p[0]) == Some(inner) && WriteVal(inner, p[1..], leaf, u) == Some(updated)
    ensures WriteVal(v, p, leaf, u) == Replace(v, p[0], updated)
    ensures ErasePath(p) == [Erase(p[0])] + ErasePath(p[1..])
  {
    hide Component, Replace;
    inner := Component(v, p[0]).value;
    updated := WriteVal(inner, p[1..], leaf, u).value;
  }

  lemma RebuildSteps(lit: Expr, step: PathStep, p: Path, leaf: PathStep, key: string, e: Expr)
    ensures lit.StructLit? && step.Field? && FindEntry(lit.fields, step.name) < |lit.fields| ==>
              var i := FindEntry(lit.fields, step.name);
              var u := Rebuild(lit.fields[i].value, p, leaf, key, e);
              u.Some? ==>
                Rebuild(lit, [step] + p, leaf, key, e)
                == Some(StructLit(lit.fields[i := Entry(step.name, u.value)]))
    ensures lit.ArrayLit? && step == Index && AnyRebuilds(lit.elements, p, leaf, key, e) ==>
              Rebuild(lit, [step] + p, leaf, key, e) == Some(ArrayLit(RebuildEach(lit.elements, p, leaf, key, e)))
    ensures lit.MapLit? && step == Index && AnyRebuilds(Values(lit.entries), p, leaf, key, e) ==>
              var us := RebuildEach(Values(lit.entries), p, leaf, key, e);
              Rebuild(lit, [step] + p, leaf, key, e)
              == Some(MapLit(seq(|lit.entries|, k requires 0 <= k < |lit.entries| => Entry(lit.entries[k].key, us[k]))))
  {
    assert ([step] + p)[0] == step && ([step] + p)[1..] == p;
  }

  /** A write that succeeds at run time is taken by the literal. */
  lemma {:induction false} WriteMirrors(lit: Expr, v: Val, p: seq<RunStep>, leaf: RunStep, e: Expr, u: Val)
    requires Mirrors(lit, v) && SelfContained(lit) && Mirrors(e, u) && WriteVal(v, p, leaf, u).Some?
    requires leaf.AtField? ==> ThroughFields(p)
    ensures Rebuild(lit, ErasePath(p), Erase(leaf), LeafKey(leaf), e).Some?
    ensures Mirrors(Rebuild(lit, ErasePath(p), Erase(leaf), LeafKey(leaf), e).value, WriteVal(v, p, leaf, u).value)
    decreases |p|
  {
    hide Replace, Rebuild, AnyRebuilds;
    if p == [] {
      WriteHereMirrors(lit, v, leaf, e, u);
      assert ErasePath(p) == [];
    } else {
      var inner, updated := WriteSteps(v, p, leaf, u);
      var rest, key := ErasePath(p[1..]), LeafKey(leaf);
      RebuildSteps(lit, Erase(p[0]), rest, Erase(leaf), key, e);
      hide WriteVal, ErasePath, LeafKey;
      match p[0]
      case AtField(g) =>
        var i := FindEntry(lit.fields, g);
        WriteMirrors(lit.fields[i].value, inner, p[1..], leaf, e, u);
        FieldStepMirrors(lit, v, g, i, Rebuild(lit.fields[i].value, rest, Erase(leaf), key, e).value, updated);
      case AtIndex(j) =>
        assert SomeMirrors(lit, v.elements[j]);
        var i :| 0 <= i < |lit.elements| && Mirrors(lit.elements[i], inner);
        WriteMirrors(lit.elements[i], inner, p[1..], leaf, e, u);
        ArrayStepMirrors(lit.elements, v, j, i, rest, key, e, updated);
      case AtKey(k) =>
        assert SomeMirrors(lit, v.entries[k]);
        var i :| 0 <= i < |lit.entries| && Mirrors(lit.entries[i].value, inner);
        WriteMirrors(lit.entries[i].value, inner, p[1..], leaf, e, u);
        MapStepMirrors(lit.entries, v, k, i, rest, key, e, updated);
    }
  }

  lemma FieldStepMirrors(lit: Expr, v: Val, g: string, i: nat, u': Expr, updated: Val)
    requires lit.StructLit? && v.StructVal? && Mirrors(lit, v) && i == FindEntry(lit.fields, g) < |lit.fields|
             && Mirrors(u', updated)
    ensures Replace(v, AtField(g), updated).Some?
    ensures Mirrors(StructLit(lit.fields[i := Entry(g, u')]), Replace(v, AtField(g), updated).value)
  {
    var fs', v' := lit.fields[i := Entry(g, u')], Replace(v, AtField(g), updated).value;
    forall f | f in v'.fields
      ensures FindEntry(fs', f) < |fs'| && Mirrors(fs'[FindEntry(fs', f)].value, v'.fields[f])
    {
      SameFindEntry(lit.fields, fs', f);
    }
  }

  lemma ArrayStepMirrors(es: seq<Expr>, v: Val, j: nat, i: nat, p: Path, key: string, e: Expr, updated: Val)
    requires v.ArrayVal? && j < |v.elements| && i < |es| && Mirrors(ArrayLit(es), v)
    requires Rebuild(es[i], p, Index, key, e).Some? && Mirrors(Rebuild(es[i], p, Index, key, e).value, updated)
    ensures AnyRebuilds(es, p, Index, key, e) && Replace(v, AtIndex(j), updated).Some?
    ensures Mirrors(ArrayLit(RebuildEach(es, p, Index, key, e)), Replace(v, AtIndex(j), updated).value)
  {
    var es', v' := RebuildEach(es, p, Index, key, e), Replace(v, AtIndex(j), updated).value;
    forall l | 0 <= l < |v'.elements|
      ensures SomeMirrors(ArrayLit(es'), v'.elements[l])
    {
      if l == j {
        assert Mirrors(es'[i], v'.elements[l]);
      } else {
        assert SomeMirrors(ArrayLit(es), v.elements[l]);
        var k :| 0 <= k < |es| && Mirrors(es[k], v.elements[l]);
        EachExtends(es, p, key, e, k);
        ExtendedMirrors(es[k], es'[k], v.elements[l]);
        assert Mirrors(es'[k], v'.elements[l]);
      }
    }
  }

  lemma EachExtends(es: seq<Expr>, p: Path, key: string, e: Expr, k: nat)
    requires k < |es|
    ensures Extends(es[k], RebuildEach(es, p, Index, key, e)[k])
  {
    if Rebuild(es[k], p, Index, key, e).Some? {
      RebuildExtends(es[k], p, key, e);
    }
  }

  lemma MapStepMirrors(fs: seq<Entry>, v: Val, key: string, i: nat, p: Path, leafKey: string, e: Expr, updated: Val)
    requires v.MapVal? && key in v.entries && i < |fs| && Mirrors(MapLit(fs), v)
    requires Rebuild(fs[i].value, p, Index, leafKey, e).Some?
             && Mirrors(Rebuild(fs[i].value, p, Index, leafKey, e).value, updated)
    ensures AnyRebuilds(Values(fs), p, Index, leafKey, e) && Replace(v, AtKey(key), updated).Some?
    ensures var us := RebuildEach(Values(fs), p, Index, leafKey, e);
            Mirrors(MapLit(seq(|fs|, k requires 0 <= k < |fs| => Entry(fs[k].key, us[k]))),
                    Replace(v, AtKey(key), updated).value)
  {
    var es := Values(fs);
    var us, v' := RebuildEach(es, p, Index, leafKey, e), Replace(v, AtKey(key), updated).value;
    var fs' := seq(|fs|, k requires 0 <= k < |fs| => Entry(fs[k].key, us[k]));
    assert es[i] == fs[i].value;
    forall l | l in v'.entries
      ensures SomeMirrors(MapLit(fs'), v'.entries[l])
    {
      if l == key {
        assert Mirrors(fs'[i].value, v'.entries[l]);
      } else {
        assert SomeMirrors(MapLit(fs), v.entries[l]);
        var k :| 0 <= k < |fs| && Mirrors(fs[k].value, v.entries[l]);
        EachExtends(es, p, leafKey, e, k);
        ExtendedMirrors(fs[k].value, fs'[k].value, v.entries[l]);
        assert Mirrors(fs'[k].value, v'.entries[l]);
      }
    }
  }

  // ----- whole bodies -----

  predicate Contained(e: Expr) {
    SelfContained(e) && FieldsOnce(e)
  }

  /** Literals, aliases of names declared before, pushes, index writes anywhere, and field writes
      through fields. */
  predicate Builds(names: set<string>, st: Stmt) {
    match st
    case Let(_, e) => if e.Var? then e.name in names else IsLiteral(e) && Contained(e)
    case Assign(_, e) => if e.Var? then e.name in names else IsLiteral(e) && Contained(e)
    case Push(_, e) => Contained(e)
    case Write(_, path, leaf, e) => Contained(e) && (leaf.AtField? ==> ThroughFields(path))
    case Compound(_, _) => false
  }

  predicate BodyBuilds(body: seq<Stmt>) {
    body != [] ==>
      var init := body[..|body| - 1];
      BodyBuilds(init) && Builds(Names(init), body[|body| - 1])
  }

  /** Every name is tracked by a literal that its value mirrors. */
  ghost predicate Tracked(m: Lits, s: Store) {
    m.Keys == s.Keys && forall x | x in m :: IsLiteral(m[x]) && Contained(m[x]) && Mirrors(m[x], s[x])
  }

  lemma {:induction false} ContainedRebuild(lit: Expr, p: Path, leaf: PathStep, key: string, e: Expr)
    requires Rebuild(lit, p, leaf, key, e).Some? && SelfContained(lit) && SelfContained(e)
    ensures SelfContained(Rebuild(lit, p, leaf, key, e).value)
    decreases |p|
  {
    if p != [] {
      match lit
      case StructLit(fs) => ContainedRebuild(fs[FindEntry(fs, p[0].name)].value, p[1..], leaf, key, e);
      case ArrayLit(es) =>
        forall i | 0 <= i < |es| && Rebuild(es[i], p[1..], leaf, key, e).Some?
          ensures SelfContained(Rebuild(es[i], p[1..], leaf, key, e).value)
        {
          ContainedRebuild(es[i], p[1..], leaf, key, e);
        }
      case MapLit(fs) =>
        forall i | 0 <= i < |fs| && Rebuild(Values(fs)[i], p[1..], leaf, key, e).Some?
          ensures SelfContained(Rebuild(Values(fs)[i], p[1..], leaf, key, e).value)
        {
          ContainedRebuild(fs[i].value, p[1..], leaf, key, e);
        }
    }
  }

  lemma BindStaysTracked(m: Lits, s: Store, x: string, lit: Expr, v: Val)
    requires Tracked(m, s) && IsLiteral(lit) && Contained(lit) && Mirrors(lit, v)
    ensures Tracked(m[x := lit], s[x := v])
  {
    hide Mirrors, SelfContained, FieldsOnce;
  }

  lemma ContainedPush(es: seq<Expr>, e: Expr)
    requires Contained(ArrayLit(es)) && Contained(e)
    ensures Contained(ArrayLit(es + [e]))
  {
  }

  lemma StatementStaysTracked(m: Lits, s: Store, st: Stmt)
    requires Tracked(m, s) && Builds(s.Keys, st) && Exec(s, st).Some?
    ensures Tracked(Track(m, st), Exec(s, st).value)
  {
    hide SelfContained, FieldsOnce, Mirrors, Rebuild, WriteVal;
    match st
    case Let(x, e) => BoundStaysTracked(m, s, x, e);
    case Assign(x, e) => BoundStaysTracked(m, s, x, e);
    case Push(x, e) =>
      PushIsTaken(m, s, st);
      EvalMirrors(s, e);
      PushMirrors(m[x].elements, s[x], e, Eval(s, e));
      ContainedPush(m[x].elements, e);
      BindStaysTracked(m, s, x, ArrayLit(m[x].elements + [e]), ArrayVal(s[x].elements + [Eval(s, e)]));
    case Write(x, path, leaf, e) =>
      var p, l, key := ErasePath(path), Erase(leaf), LeafKey(leaf);
      EvalMirrors(s, e);
      WriteMirrors(m[x], s[x], path, leaf, e, Eval(s, e));
      ContainedRebuild(m[x], p, l, key, e);
      RebuildStaysTidy(m[x], p, l, key, e);
      BindStaysTracked(m, s, x, Rebuild(m[x], p, l, key, e).value, WriteVal(s[x], path, leaf, Eval(s, e)).value);
  }

  lemma BoundStaysTracked(m: Lits, s: Store, x: string, e: Expr)
    requires Tracked(m, s) && if e.Var? then e.name in s else IsLiteral(e) && Contained(e)
    ensures Track(m, Let(x, e)) == Track(m, Assign(x, e)) && Tracked(Track(m, Let(x, e)), s[x := Eval(s, e)])
  {
    hide SelfContained, FieldsOnce, Mirrors;
    if e.Var? {
      BindStaysTracked(m, s, x, m[e.name], s[e.name]);
    } else {
      EvalMirrors(s, e);
      BindStaysTracked(m, s, x, e, Eval(s, e));
    }
  }

  lemma PushMirrors(es: seq<Expr>, v: Val, e: Expr, u: Val)
    requires Mirrors(ArrayLit(es), v) && Mirrors(e, u)
    ensures Mirrors(ArrayLit(es + [e]), ArrayVal(v.elements + [u]))
  {
    var es', vs' := es + [e], v.elements + [u];
    forall j | 0 <= j < |vs'|
      ensures SomeMirrors(ArrayLit(es'), vs'[j])
    {
      assert Mirrors(es'[|es|], u);
      if j < |v.elements| {
        assert SomeMirrors(ArrayLit(es), v.elements[j]);
        var k :| 0 <= k < |es| && Mirrors(es[k], v.elements[j]);
        assert Mirrors(es'[k], vs'[j]);
      }
    }
  }

  /** Every name such a body declares stays tracked. */
  lemma {:induction false} BodyStaysTracked(body: seq<Stmt>)
    requires ExecAll(map[], body).Some? && BodyBuilds(body)
    ensures Tracked(TrackAll(map[], body), ExecAll(map[], body).value)
    decreases |body|
  {
    if body != [] {
      var init := body[..|body| - 1];
      BodyStaysTracked(init);
      NamesAreHeld(init);
      hide Tracked, Builds, Track, Exec;
      StatementStaysTracked(TrackAll(map[], init), ExecAll(map[], init).value, body[|body| - 1]);
    }
  }

  // ----- what was put, read off the body -----

  /** Some statement put a closure of authority `c` into `x` at `path`, and no later one replaced
      what is there. Index writes add to what other elements may hold. */
  ghost predicate Put(body: seq<Stmt>, x: string, path: Path, c: CapSet)
    decreases |body|
  {
    body != [] &&
    var init := body[..|body| - 1];
    match body[|body| - 1]
    case Let(y, e) =>
      if y != x then Put(init, x, path, c) else if e.Var? then Put(init, e.name, path, c) else Lies(e, path, c)
    case Assign(y, e) =>
      if y != x then Put(init, x, path, c) else if e.Var? then Put(init, e.name, path, c) else Lies(e, path, c)
    case Push(y, e) => Put(init, x, path, c) || (y == x && Under([], Index, path) && Lies(e, path[1..], c))
    case Write(y, p, leaf, e) =>
      var here := y == x && Under(ErasePath(p), Erase(leaf), path);
      if leaf.AtField? && here then Lies(e, path[|p| + 1..], c)
      else Put(init, x, path, c) || (here && Lies(e, path[|p| + 1..], c))
    case Compound(_, _) => false
  }

  /** Whatever was put along `path` is a closure that is resolved on the spot. */
  ghost predicate PutsClosures(body: seq<Stmt>, x: string, path: Path)
    decreases |body|
  {
    body != [] &&
    var init := body[..|body| - 1];
    match body[|body| - 1]
    case Let(y, e) =>
      if y != x then PutsClosures(init, x, path)
      else if e.Var? then PutsClosures(init, e.name, path) else EndsInClosures(e, path)
    case Assign(y, e) =>
      if y != x then PutsClosures(init, x, path)
      else if e.Var? then PutsClosures(init, e.name, path) else EndsInClosures(e, path)
    case Push(y, e) =>
      PutsClosures(init, x, path) && (y == x && Under([], Index, path) ==> EndsInClosures(e, path[1..]))
    case Write(y, p, leaf, e) =>
      var here := y == x && Under(ErasePath(p), Erase(leaf), path);
      if leaf.AtField? && here then EndsInClosures(e, path[|p| + 1..])
      else PutsClosures(init, x, path) && (here ==> EndsInClosures(e, path[|p| + 1..]))
    case Compound(_, _) => false
  }

  ghost predicate HoldsWhatWasPut(body: seq<Stmt>, lit: Expr, x: string, path: Path) {
    && (forall c :: Lies(lit, path, c) <==> Put(body, x, path, c))
    && (EndsInClosures(lit, path) <==> PutsClosures(body, x, path))
  }

  lemma ErasedLength(p: seq<RunStep>)
    ensures |ErasePath(p)| == |p| && (ThroughFields(p) ==> AllFields(ErasePath(p)))
  {
  }

  lemma PushHolds(body: seq<Stmt>, m: Lits, x: string, path: Path)
    requires body != [] && body[|body| - 1].Push? && body[|body| - 1].x == x && x in m && m[x].ArrayLit?
    requires HoldsWhatWasPut(body[..|body| - 1], m[x], x, path)
    ensures HoldsWhatWasPut(body, ArrayLit(m[x].elements + [body[|body| - 1].e]), x, path)
  {
    var e := body[|body| - 1].e;
    AppendHere(m[x], "", e, path);
    hide Lies, EndsInClosures, Under;
  }

  lemma FieldWriteHolds(body: seq<Stmt>, lit: Expr, x: string, path: Path)
    requires body != [] && body[|body| - 1].Write? && body[|body| - 1].x == x
    requires var st := body[|body| - 1];
             && st.leaf.AtField? && ThroughFields(st.path)
             && Rebuild(lit, ErasePath(st.path), Field(st.leaf.name), "", st.e).Some?
    requires HoldsWhatWasPut(body[..|body| - 1], lit, x, path)
    ensures var st := body[|body| - 1];
            HoldsWhatWasPut(body, Rebuild(lit, ErasePath(st.path), Field(st.leaf.name), "", st.e).value, x, path)
  {
    var st := body[|body| - 1];
    ErasedLength(st.path);
    hide Lies, EndsInClosures, Under, Rebuild, ErasePath;
    assert Under(ErasePath(st.path), Field(st.leaf.name), path) ==> |st.path| < |path| by {
      UnderIsLonger(ErasePath(st.path), Field(st.leaf.name), path);
    }
    var lit' := Rebuild(lit, ErasePath(st.path), Field(st.leaf.name), "", st.e).value;
    forall c
      ensures Lies(lit', path, c) <==> Put(body, x, path, c)
      ensures EndsInClosures(lit', path) <==> PutsClosures(body, x, path)
    {
      ReplaceLies(lit, ErasePath(st.path), st.leaf.name, st.e, path, c);
    }
    ReplaceLies(lit, ErasePath(st.path), st.leaf.name, st.e, path, {});
  }

  lemma UnderIsLonger(p: Path, leaf: PathStep, path: Path)
    ensures Under(p, leaf, path) ==> |p| < |path|
  {
  }

  lemma IndexWriteHolds(body: seq<Stmt>, lit: Expr, x: string, path: Path)
    requires body != [] && body[|body| - 1].Write? && body[|body| - 1].x == x
    requires var st := body[|body| - 1];
             !st.leaf.AtField? && Rebuild(lit, ErasePath(st.path), Index, LeafKey(st.leaf), st.e).Some?
    requires HoldsWhatWasPut(body[..|body| - 1], lit, x, path)
    ensures var st := body[|body| - 1];
            HoldsWhatWasPut(body, Rebuild(lit, ErasePath(st.path), Index, LeafKey(st.leaf), st.e).value, x, path)
  {
    var st := body[|body| - 1];
    ErasedLength(st.path);
    hide Lies, EndsInClosures, Under, Rebuild, ErasePath, LeafKey;
    assert Under(ErasePath(st.path), Index, path) ==> |st.path| < |path| by {
      UnderIsLonger(ErasePath(st.path), Index, path);
    }
    AppendLies(lit, ErasePath(st.path), LeafKey(st.leaf), st.e, path);
  }

  lemma OtherHolds(body: seq<Stmt>, lit: Expr, x: string, path: Path)
    requires body != [] && !body[|body| - 1].Compound? && body[|body| - 1].x != x
    requires HoldsWhatWasPut(body[..|body| - 1], lit, x, path)
    ensures HoldsWhatWasPut(body, lit, x, path)
  {
    hide Lies, EndsInClosures, Under;
  }

  lemma BindHolds(body: seq<Stmt>, lit: Expr, x: string, e: Expr, path: Path)
    requires body != [] && (body[|body| - 1] == Let(x, e) || body[|body| - 1] == Assign(x, e))
    requires if e.Var? then HoldsWhatWasPut(body[..|body| - 1], lit, e.name, path) else lit == e
    ensures HoldsWhatWasPut(body, lit, x, path)
  {
    hide Lies, EndsInClosures, Under;
  }

  lemma StatementHoldsWhatWasPut(body: seq<Stmt>, m: Lits, s: Store, x: string, path: Path)
    requires body != [] && Tracked(m, s) && Builds(s.Keys, body[|body| - 1]) && Exec(s, body[|body| - 1]).Some?
    requires forall y | y in m :: HoldsWhatWasPut(body[..|body| - 1], m[y], y, path)
    requires x in Exec(s, body[|body| - 1]).value
    ensures x in Track(m, body[|body| - 1]) && HoldsWhatWasPut(body, Track(m, body[|body| - 1])[x], x, path)
  {
    var st := body[|body| - 1];
    StatementStaysTracked(m, s, st);
    hide HoldsWhatWasPut, Mirrors, SelfContained, FieldsOnce, Rebuild, Eval, WriteVal;
    if st.x != x {
      OtherHolds(body, m[x], x, path);
    } else if st.Let? || st.Assign? {
      BindHolds(body, Track(m, st)[x], x, st.e, path);
    } else {
      ChangeHolds(body, m, s, path);
    }
  }

  lemma ChangeHolds(body: seq<Stmt>, m: Lits, s: Store, path: Path)
    requires body != [] && Tracked(m, s) && Builds(s.Keys, body[|body| - 1]) && Exec(s, body[|body| - 1]).Some?
    requires body[|body| - 1].Push? || body[|body| - 1].Write?
    requires forall y | y in m :: HoldsWhatWasPut(body[..|body| - 1], m[y], y, path)
    ensures var st := body[|body| - 1];
            st.x in Track(m, st) && HoldsWhatWasPut(body, Track(m, st)[st.x], st.x, path)
  {
    hide HoldsWhatWasPut, Mirrors, SelfContained, FieldsOnce, Rebuild, Eval, WriteVal;
    var st := body[|body| - 1];
    match st
    case Push(x, _) =>
      PushIsTaken(m, s, st);
      PushHolds(body, m, x, path);
    case Write(x, _, leaf, _) =>
      WriteIsTaken(m, s, st);
      if leaf.AtField? {
        FieldWriteHolds(body, m[x], x, path);
      } else {
        IndexWriteHolds(body, m[x], x, path);
      }
  }

  lemma {:induction false} LiteralsHoldWhatWasPut(body: seq<Stmt>, x: string, path: Path)
    requires ExecAll(map[], body).Some? && BodyBuilds(body) && x in Names(body)
    ensures x in TrackAll(map[], body) && HoldsWhatWasPut(body, TrackAll(map[], body)[x], x, path)
    decreases |body|
  {
    var init := body[..|body| - 1];
    NamesAreHeld(body);
    BodyStaysTracked(init);
    NamesAreHeld(init);
    var m, s := TrackAll(map[], init), ExecAll(map[], init).value;
    assert m.Keys == s.Keys == Names(init);
    hide HoldsWhatWasPut, Tracked, Builds, Exec, Track;
    forall y | y in m
      ensures HoldsWhatWasPut(init, m[y], y, path)
    {
      LiteralsHoldWhatWasPut(init, y, path);
    }
    StatementHoldsWhatWasPut(body, m, s, x, path);
  }

  lemma PushIsTaken(m: Lits, s: Store, st: Stmt)
    requires Tracked(m, s) && st.Push? && Exec(s, st).Some?
    ensures st.x in m && m[st.x].ArrayLit?
  {
  }

  lemma WriteIsTaken(m: Lits, s: Store, st: Stmt)
    requires Tracked(m, s) && st.Write? && Builds(s.Keys, st) && Exec(s, st).Some?
    ensures st.x in m && Rebuild(m[st.x], ErasePath(st.path), Erase(st.leaf), LeafKey(st.leaf), st.e).Some?
  {
    EvalMirrors(s, st.e);
    WriteMirrors(m[st.x], s[st.x], st.path, st.leaf, st.e, Eval(s, st.e));
  }

  /** After any such body every declared name is tracked. A path into it resolves to a known set
      exactly if closures alone were put along it, and the set is the union of theirs. */
  lemma ResolvesToWhatWasPut(body: seq<Stmt>, x: string, path: Path)
    requires ExecAll(map[], body).Some? && BodyBuilds(body) && x in Names(body) && path != []
    ensures Tracks(TrackAll(map[], body)) && x in TrackAll(map[], body)
    ensures Resolve(TrackAll(map[], body), Var(x), path).Known? <==> PutsClosures(body, x, path)
    ensures Resolve(TrackAll(map[], body), Var(x), path).Known? ==> forall cap ::
              cap in Resolve(TrackAll(map[], body), Var(x), path).caps <==>
                exists c :: Put(body, x, path, c) && cap in c
  {
    TrackAllTracks(body);
    BodyStaysTracked(body);
    LiteralsHoldWhatWasPut(body, x, path);
    var m := TrackAll(map[], body);
    hide Lies, EndsInClosures, Put, PutsClosures, Mirrors, TrackAll, ExecAll, BodyBuilds;
    ResolveIsWhatLies(m, m[x], path);
    assert Resolve(m, Var(x), path) == Resolve(m, m[x], path);
  }

  // ----- without index writes, it is what the value holds -----

  /** Maps name each key once. */
  predicate KeysOnce(e: Expr)
    decreases e
  {
    match e
    case StructLit(fs) => forall i | 0 <= i < |fs| :: KeysOnce(fs[i].value)
    case ArrayLit(es) => forall i | 0 <= i < |es| :: KeysOnce(es[i])
    case MapLit(fs) =>
      && (forall i, j | 0 <= i < j < |fs| :: fs[i].key != fs[j].key)
      && forall i | 0 <= i < |fs| :: KeysOnce(fs[i].value)
    case _ => true
  }

  lemma {:induction false} EntriesHold(s: Store, fs: seq<Entry>, i: nat)
    requires i < |fs| && forall a, b | 0 <= a < b < |fs| :: fs[a].key != fs[b].key
    ensures fs[i].key in EvalEntries(s, fs) && EvalEntries(s, fs)[fs[i].key] == Eval(s, fs[i].value)
    decreases |fs|
  {
    if i < |fs| - 1 {
      assert fs[..|fs| - 1][i] == fs[i];
      EntriesHold(s, fs[..|fs| - 1], i);
    }
  }

  lemma {:induction false} LiesIsReach(s: Store, e: Expr, path: Path, c: CapSet)
    requires Contained(e) && KeysOnce(e)
    ensures Lies(e, path, c) <==> Reach(Eval(s, e), path, c)
    decreases e
  {
    if path != [] {
      match e
      case Closure(_) =>
      case Unresolved(_) =>
      case StructLit(fs) => StructLiesIsReach(s, e, path, c);
      case ArrayLit(es) =>
        forall i | 0 <= i < |es|
          ensures Lies(es[i], path[1..], c) <==> Reach(Eval(s, e).elements[i], path[1..], c)
        {
          LiesIsReach(s, es[i], path[1..], c);
        }
      case MapLit(fs) => MapLiesIsReach(s, e, path, c);
    }
  }

  lemma {:induction false} StructLiesIsReach(s: Store, e: Expr, path: Path, c: CapSet)
    requires e.StructLit? && Contained(e) && KeysOnce(e) && path != []
    ensures Lies(e, path, c) <==> Reach(Eval(s, e), path, c)
    decreases e, 0
  {
    var fs := e.fields;
    if path[0].Field? {
      var i := FindEntry(fs, path[0].name);
      if path[0].name in EvalEntries(s, fs) {
        var k := EvalEntriesHas(s, fs, path[0].name);
        assert i == k;
      }
      if i < |fs| {
        EntriesHold(s, fs, i);
        LiesIsReach(s, fs[i].value, path[1..], c);
      }
    }
  }

  lemma {:induction false} MapLiesIsReach(s: Store, e: Expr, path: Path, c: CapSet)
    requires e.MapLit? && Contained(e) && KeysOnce(e) && path != []
    ensures Lies(e, path, c) <==> Reach(Eval(s, e), path, c)
    decreases e, 0
  {
    var fs := e.entries;
    forall i | 0 <= i < |fs|
      ensures Lies(fs[i].value, path[1..], c) <==> Reach(Eval(s, fs[i].value), path[1..], c)
    {
      LiesIsReach(s, fs[i].value, path[1..], c);
    }
    if i :| 0 <= i < |fs| && Lies(fs[i].value, path[1..], c) {
      EntriesHold(s, fs, i);
    }
    if path[0] == Index && Reach(Eval(s, e), path, c) {
      var k :| k in EvalEntries(s, fs) && Reach(EvalEntries(s, fs)[k], path[1..], c);
      var i := EvalEntriesHas(s, fs, k);
    }
  }

  predicate OverwritesNothing(st: Stmt) {
    match st
    case Let(_, e) => KeysOnce(e)
    case Assign(_, e) => KeysOnce(e)
    case Push(_, e) => KeysOnce(e)
    case Write(_, _, leaf, e) => leaf.AtField? && KeysOnce(e)
    case Compound(_, _) => true
  }

  /** What a field write through fields leaves reachable. */
  lemma {:induction false} FieldWriteReach(v: Val, p: seq<RunStep>, f: string, u: Val, path: Path, c: CapSet)
    requires ThroughFields(p) && WriteVal(v, p, AtField(f), u).Some?
    ensures Reach(WriteVal(v, p, AtField(f), u).value, path, c) <==>
              if Under(ErasePath(p), Field(f), path) then Reach(u, path[|p| + 1..], c) else Reach(v, path, c)
    decreases |p|
  {
    ErasedLength(p);
    if p == [] {
      assert path[..0] == [];
    } else {
      var inner, updated := WriteSteps(v, p, AtField(f), u);
      assert forall i | 0 <= i < |p[1..]| :: p[1..][i].AtField?;
      ErasedLength(p[1..]);
      UnderStep(ErasePath(p), Field(f), path);
      assert ErasePath(p)[1..] == ErasePath(p[1..]);
      if path != [] && path[0] == Erase(p[0]) {
        FieldWriteReach(inner, p[1..], f, u, path[1..], c);
      }
    }
  }

  lemma PutIsReachStep(body: seq<Stmt>, s: Store, x: string, path: Path, c: CapSet)
    requires body != [] && Exec(s, body[|body| - 1]).Some? && Builds(s.Keys, body[|body| - 1])
             && OverwritesNothing(body[|body| - 1])
    requires forall y | y in s :: Put(body[..|body| - 1], y, path, c) <==> Reach(s[y], path, c)
    requires x in Exec(s, body[|body| - 1]).value
    ensures Put(body, x, path, c) <==> Reach(Exec(s, body[|body| - 1]).value[x], path, c)
  {
    var st := body[|body| - 1];
    hide Lies, Mirrors, SelfContained, FieldsOnce, KeysOnce;
    match st
    case Let(y, e) =>
      if y == x && !e.Var? {
        LiesIsReach(s, e, path, c);
      }
    case Assign(y, e) =>
      if y == x && !e.Var? {
        LiesIsReach(s, e, path, c);
      }
    case Push(y, e) =>
      if y == x {
        if path != [] {
          LiesIsReach(s, e, path[1..], c);
        }
        PushReach(s[x], Eval(s, e), path, c);
      }
    case Write(y, p, leaf, e) =>
      if y == x {
        if |path| > |p| {
          LiesIsReach(s, e, path[|p| + 1..], c);
        }
        ErasedLength(p);
        FieldWriteReach(s[x], p, leaf.name, Eval(s, e), path, c);
      }
  }

  lemma PushReach(v: Val, u: Val, path: Path, c: CapSet)
    requires v.ArrayVal?
    ensures Reach(ArrayVal(v.elements + [u]), path, c) <==>
              Reach(v, path, c) || (Under([], Index, path) && Reach(u, path[1..], c))
  {
    var vs' := v.elements + [u];
    assert path[..if path == [] then 0 else 0] == [];
    assert vs'[|v.elements|] == u && forall j | 0 <= j < |v.elements| :: vs'[j] == v.elements[j];
  }

  lemma {:induction false} PutIsReach(body: seq<Stmt>, x: string, path: Path, c: CapSet)
    requires ExecAll(map[], body).Some? && BodyBuilds(body)
    requires forall k | 0 <= k < |body| :: OverwritesNothing(body[k])
    requires x in ExecAll(map[], body).value
    ensures Put(body, x, path, c) <==> Reach(ExecAll(map[], body).value[x], path, c)
    decreases |body|
  {
    var init := body[..|body| - 1];
    var s := ExecAll(map[], init).value;
    NamesAreHeld(init);
    hide OverwritesNothing, Reach, Put, Builds, Exec;
    assert forall k | 0 <= k < |init| :: init[k] == body[k];
    forall y | y in s
      ensures Put(init, y, path, c) <==> Reach(s[y], path, c)
    {
      PutIsReach(init, y, path, c);
    }
    PutIsReachStep(body, s, x, path, c);
  }

  /** The converse of `SnapshotsCoverTheRun`: after a body of literals, aliases, pushes and field
      writes, a known set is the union of the closures that the value holds along the path. */
  lemma ResolvesToTheRun(body: seq<Stmt>, x: string, path: Path, cap: Capability)
    requires ExecAll(map[], body).Some? && BodyBuilds(body) && path != []
    requires forall k | 0 <= k < |body| :: OverwritesNothing(body[k])
    requires x in ExecAll(map[], body).value
    ensures Tracks(TrackAll(map[], body)) && x in TrackAll(map[], body)
    ensures Resolve(TrackAll(map[], body), Var(x), path).Known? <==> PutsClosures(body, x, path)
    ensures Resolve(TrackAll(map[], body), Var(x), path).Known? ==>
              (cap in Resolve(TrackAll(map[], body), Var(x), path).caps <==>
                 exists c :: Reach(ExecAll(map[], body).value[x], path, c) && cap in c)
  {
    NamesAreHeld(body);
    ResolvesToWhatWasPut(body, x, path);
    hide OverwritesNothing, Reach, Put, PutsClosures, TrackAll, ExecAll, BodyBuilds, Resolve;
    forall c
      ensures Put(body, x, path, c) <==> Reach(ExecAll(map[], body).value[x], path, c)
    {
      PutIsReach(body, x, path, c);
    }
  }

  /** `let xs = [c ..]; xs = push(xs, d)` resolves `xs[i]` to the union of all. */
  lemma PushIsResolved(cs: seq<CapSet>, d: CapSet)
    ensures var body := [Let("xs", Closures(cs)), Push("xs", Closure(d))];
            var m := TrackAll(map[], body);
            Tracks(m) && Resolve(m, Var("xs"), [Index]) == Known(Union(cs) + d)
  {
    var one, two := Let("xs", Closures(cs)), Push("xs", Closure(d));
    ClosuresAreTidy(cs);
    var m, s := FirstLet("xs", Closures(cs), two);
    var es := Closures(cs).elements;
    var m' := Track(m, two);
    assert m' == m["xs" := ArrayLit(es + [Closure(d)])];
    TrackAllTracks([one, two]);
    assert (es + [Closure(d)])[..|es|] == es && [Index][1..] == [];
    ClosuresResolve(m', cs);
    assert ResolveAll(m', es + [Closure(d)], []) == Merge(ResolveAll(m', es, []), Known(d));
  }
}
