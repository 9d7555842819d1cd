/** Snapshots of local containers (checker.rs `apply_container_assign`,
    `rebuild_container_write`, `resolve_container_path_caps`). After a straight-line body every
    closure reachable in a tracked container is covered by what its literal resolves to. */
module Containers {
  import opened Capabilities
  import opened Wrappers
  import opened Language
  import opened Inference

  // ----- expressions, as the tracker sees them -----

  /** `Closure` is a value whose authority is resolved on the spot; `Unresolved` stands for
      every shape the resolver gives up on, and carries the value it happens to have. */
  datatype Expr =
    | Closure(caps: CapSet)
    | Unresolved(val: Val)
    | Var(name: string)
    | StructLit(fields: seq<Entry>)
    | ArrayLit(elements: seq<Expr>)
    | MapLit(entries: seq<Entry>)

  datatype Entry = Entry(key: string, value: Expr)

  datatype PathStep = Field(name: string) | Index

  type Path = seq<PathStep>

  predicate IsLiteral(e: Expr) {
    e.StructLit? || e.ArrayLit? || e.MapLit?
  }

  type Lits = map<string, Expr>

  predicate Tracks(m: Lits) {
    forall x | x in m :: IsLiteral(m[x])
  }

  // ----- run-time values -----

  datatype Val =
    | CloVal(caps: CapSet)
    | StructVal(fields: map<string, Val>)
    | ArrayVal(elements: seq<Val>)
    | MapVal(entries: map<string, Val>)
    | PlainVal

  /** A closure of authority `c` lies in `v` along `path`, at some index where it says so. */
  ghost predicate Reach(v: Val, path: Path, c: CapSet)
    decreases path
  {
    if path == [] then v == CloVal(c)
    else match path[0]
      case Field(f) => v.StructVal? && f in v.fields && Reach(v.fields[f], path[1..], c)
      case Index =>
        || (v.ArrayVal? && exists i | 0 <= i < |v.elements| :: Reach(v.elements[i], path[1..], c))
        || (v.MapVal? && exists k | k in v.entries :: Reach(v.entries[k], path[1..], c))
  }

  type Store = map<string, Val>

  function Eval(s: Store, e: Expr): Val
    decreases e
  {
    match e
    case Closure(c) => CloVal(c)
    case Unresolved(v) => v
    case Var(x) => if x in s then s[x] else PlainVal
    case StructLit(fields) => StructVal(EvalEntries(s, fields))
    case ArrayLit(elements) => ArrayVal(seq(|elements|, i requires 0 <= i < |elements| => Eval(s, elements[i])))
    case MapLit(entries) => MapVal(EvalEntries(s, entries))
  }

  function EvalEntries(s: Store, entries: seq<Entry>): map<string, Val>
    decreases entries
  {
    if entries == [] then map[]
    else
      var rest := EvalEntries(s, entries[..|entries| - 1]);
      rest[entries[|entries| - 1].key := Eval(s, entries[|entries| - 1].value)]
  }

  // ----- resolution along a path -----

  /** Summaries here are known sets or unknown; merging is their join. */
  function Merge(a: ClosureCaps, b: ClosureCaps): ClosureCaps {
    if a.Known? && b.Known? then Known(a.caps + b.caps) else Unknown
  }

  function FindEntry(entries: seq<Entry>, key: string): (i: nat)
    ensures i <= |entries|
    ensures i < |entries| ==> entries[i].key == key
    ensures forall k | 0 <= k < i :: entries[k].key != key
  {
    if entries == [] || entries[0].key == key then 0
    else
      assert forall k | 0 < k < |entries| :: entries[k] == entries[1..][k - 1];
      FindEntry(entries[1..], key) + 1
  }

  function Resolve(m: Lits, e: Expr, path: Path): ClosureCaps
    requires Tracks(m)
    decreases |path|, (if e.Var? then 1 else 0), 0
  {
    if path == [] then (if e.Closure? then Known(e.caps) else Unknown)
    else match e
      case StructLit(fields) =>
        (match path[0]
         case Field(f) =>
           var i := FindEntry(fields, f);
           if i < |fields| then Resolve(m, fields[i].value, path[1..]) else Unknown
         case Index => Unknown)
      case ArrayLit(elements) => if path[0] == Index then ResolveAll(m, elements, path[1..]) else Unknown
      case MapLit(entries) => if path[0] == Index then ResolveAll(m, Values(entries), path[1..]) else Unknown
      case Var(x) => if x in m then Resolve(m, m[x], path) else Unknown
      case _ => Unknown
  }

  function Values(entries: seq<Entry>): seq<Expr> {
    seq(|entries|, i requires 0 <= i < |entries| => entries[i].value)
  }

  /** The union over every element; nothing can be invoked in an empty container. */
  function ResolveAll(m: Lits, elements: seq<Expr>, path: Path): ClosureCaps
    requires Tracks(m)
    decreases |path|, 2, |elements|
  {
    if elements == [] then Known({})
    else
      var last := Resolve(m, elements[|elements| - 1], path);
      Merge(ResolveAll(m, elements[..|elements| - 1], path), last)
  }

  predicate Allows(r: ClosureCaps, c: CapSet) {
    r.Known? ==> c <= r.caps
  }

  /** Every closure in `v` is covered by the resolution of `e` at its path. */
  ghost predicate Covers(m: Lits, e: Expr, v: Val)
    requires Tracks(m)
  {
    forall path: Path, c | Reach(v, path, c) :: Allows(Resolve(m, e, path), c)
  }

  predicate AtLeast(a: ClosureCaps, b: ClosureCaps) {
    !a.Known? || (b.Known? && b.caps <= a.caps)
  }

  lemma {:induction false} ResolveAllAllows(m: Lits, elements: seq<Expr>, path: Path, i: nat, c: CapSet)
    requires Tracks(m) && i < |elements|
    requires Allows(Resolve(m, elements[i], path), c)
    ensures Allows(ResolveAll(m, elements, path), c)
    decreases |elements|
  {
    if i < |elements| - 1 {
      assert elements[..|elements| - 1][i] == elements[i];
      ResolveAllAllows(m, elements[..|elements| - 1], path, i, c);
    }
  }

  // ----- growth: a literal that resolves to at least as much everywhere -----

  ghost predicate Grows(m: Lits, e: Expr, m': Lits, e': Expr)
    requires Tracks(m) && Tracks(m')
  {
    forall path :: AtLeast(Resolve(m', e', path), Resolve(m, e, path))
  }

  lemma CoversGrown(m: Lits, e: Expr, m': Lits, e': Expr, v: Val)
    requires Tracks(m) && Tracks(m') && Covers(m, e, v) && Grows(m, e, m', e')
    ensures Covers(m', e', v)
  {
    forall path: Path, c | Reach(v, path, c)
      ensures Allows(Resolve(m', e', path), c)
    {
      assert AtLeast(Resolve(m', e', path), Resolve(m, e, path));
    }
  }

  /** Element by element growth, with more elements allowed at the end. */
  lemma {:induction false} ResolveAllGrows(m: Lits, es: seq<Expr>, m': Lits, es': seq<Expr>, path: Path)
    requires Tracks(m) && Tracks(m') && |es| <= |es'|
    requires forall i | 0 <= i < |es| :: AtLeast(Resolve(m', es'[i], path), Resolve(m, es[i], path))
    ensures AtLeast(ResolveAll(m', es', path), ResolveAll(m, es, path))
    decreases |es'|
  {
    if es' != [] {
      var init' := es'[..|es'| - 1];
      if |es| < |es'| {
        ResolveAllGrows(m, es, m', init', path);
      } else {
        ResolveAllGrows(m, es[..|es| - 1], m', init', path);
      }
    }
  }

  // ----- statements -----

  datatype RunStep = AtField(name: string) | AtIndex(i: nat) | AtKey(key: string)

  datatype Stmt =
    | Let(x: string, e: Expr)
    | Assign(x: string, e: Expr)
    | Push(x: string, e: Expr)                                          // x = push(x, e)
    | Write(x: string, path: seq<RunStep>, leaf: RunStep, e: Expr)      // x.path.leaf = e
    | Compound(x: string, result: Val)                                  // x += ..

  function Erase(s: RunStep): PathStep {
    if s.AtField? then Field(s.name) else Index
  }

  function ErasePath(p: seq<RunStep>): Path {
    seq(|p|, i requires 0 <= i < |p| => Erase(p[i]))
  }

  /** The component a step selects, if the value has it. */
  function Component(v: Val, s: RunStep): Option<Val> {
    match s
    case AtField(f) => if v.StructVal? && f in v.fields then Some(v.fields[f]) else None
    case AtIndex(i) => if v.ArrayVal? && i < |v.elements| then Some(v.elements[i]) else None
    case AtKey(k) => if v.MapVal? && k in v.entries then Some(v.entries[k]) else None
  }

  function Replace(v: Val, s: RunStep, u: Val): Option<Val> {
    match s
    case AtField(f) => if v.StructVal? then Some(StructVal(v.fields[f := u])) else None
    case AtIndex(i) => if v.ArrayVal? && i < |v.elements| then Some(ArrayVal(v.elements[i := u])) else None
    case AtKey(k) => if v.MapVal? then Some(MapVal(v.entries[k := u])) else None
  }

  function WriteVal(v: Val, path: seq<RunStep>, leaf: RunStep, u: Val): Option<Val>
    decreases |path|
  {
    if path == [] then Replace(v, leaf, u)
    else
      match Component(v, path[0])
      case None => None
      case Some(inner) =>
        match WriteVal(inner, path[1..], leaf, u)
        case None => None
        case Some(updated) => Replace(v, path[0], updated)
  }

  /** Values are copied; a statement with no meaning stops the program. */
  function Exec(s: Store, st: Stmt): Option<Store> {
    match st
    case Let(x, e) => Some(s[x := Eval(s, e)])
    case Assign(x, e) => if x in s then Some(s[x := Eval(s, e)]) else None
    case Push(x, e) => if x in s && s[x].ArrayVal? then Some(s[x := ArrayVal(s[x].elements + [Eval(s, e)])]) else None
    case Write(x, path, leaf, e) =>
      if x !in s then None
      else
        (match WriteVal(s[x], path, leaf, Eval(s, e))
         case None => None
         case Some(v) => Some(s[x := v]))
    case Compound(x, v) => if x in s then Some(s[x := v]) else None
  }

  // ----- the tracker -----

  /** Splice `e` into the literal at `path` + `leaf`. An index step applies to every element
      that can take the write; `None` tells the caller to drop the snapshot. */
  function Rebuild(lit: Expr, path: Path, leaf: PathStep, key: string, e: Expr): Option<Expr>
    decreases |path|, 0
  {
    if path == [] then
      match (leaf, lit)
      case (Field(f), StructLit(fields)) =>
        var i := FindEntry(fields, f);
        Some(StructLit(if i < |fields| then fields[i := Entry(f, e)] else fields + [Entry(f, e)]))
      case (Index, ArrayLit(elements)) => Some(ArrayLit(elements + [e]))
      case (Index, MapLit(entries)) => Some(MapLit(entries + [Entry(key, e)]))
      case _ => None
    else
      match (path[0], lit)
      case (Field(f), StructLit(fields)) =>
        var i := FindEntry(fields, f);
        if i == |fields| then None
        else
          (match Rebuild(fields[i].value, path[1..], leaf, key, e)
           case None => None
           case Some(u) => Some(StructLit(fields[i := Entry(f, u)])))
      case (Index, ArrayLit(elements)) =>
        if AnyRebuilds(elements, path[1..], leaf, key, e)
        then Some(ArrayLit(RebuildEach(elements, path[1..], leaf, key, e))) else None
      case (Index, MapLit(entries)) =>
        if AnyRebuilds(Values(entries), path[1..], leaf, key, e)
        then
          var us := RebuildEach(Values(entries), path[1..], leaf, key, e);
          Some(MapLit(seq(|entries|, i requires 0 <= i < |entries| => Entry(entries[i].key, us[i]))))
        else None
      case _ => None
  }

  function RebuildEach(es: seq<Expr>, path: Path, leaf: PathStep, key: string, e: Expr): (r: seq<Expr>)
    ensures |r| == |es|
    decreases |path|, 1
  {
    seq(|es|, i requires 0 <= i < |es| =>
      match Rebuild(es[i], path, leaf, key, e)
      case Some(u) => u
      case None => es[i])
  }

  predicate AnyRebuilds(es: seq<Expr>, path: Path, leaf: PathStep, key: string, e: Expr)
    decreases |path|, 1
  {
    exists i | 0 <= i < |es| :: Rebuild(es[i], path, leaf, key, e).Some?
  }

  function LeafKey(leaf: RunStep): string {
    if leaf.AtKey? then leaf.key else ""
  }

  function Track(m: Lits, st: Stmt): Lits {
    match st
    case Let(x, e) =>
      if IsLiteral(e) then m[x := e]
      else if e.Var? && e.name in m then m[x := m[e.name]]
      else m
    case Assign(x, e) =>
      if IsLiteral(e) then m[x := e]
      else if e.Var? && e.name in m then m[x := m[e.name]]
      else m - {x}
    case Push(x, e) =>
      if x in m && m[x].ArrayLit? then m[x := ArrayLit(m[x].elements + [e])] else m - {x}
    case Write(x, path, leaf, e) =>
      if x !in m then m
      else
        (match Rebuild(m[x], ErasePath(path), Erase(leaf), LeafKey(leaf), e)
         case Some(u) => m[x := u]
         case None => m - {x})
    case Compound(x, _) => m - {x}
  }

  // ----- the fragment -----

  predicate Mentions(e: Expr, x: string)
    decreases e
  {
    match e
    case Var(y) => y == x
    case ArrayLit(es) => exists i | 0 <= i < |es| :: Mentions(es[i], x)
    case StructLit(fs) => exists i | 0 <= i < |fs| :: Mentions(fs[i].value, x)
    case MapLit(fs) => exists i | 0 <= i < |fs| :: Mentions(fs[i].value, x)
    case _ => false
  }

  /** No literal other than its own names `x`. */
  predicate Unmentioned(m: Lits, x: string) {
    forall y | y in m :: !Mentions(m[y], x)
  }

  ghost predicate Scoped(e: Expr, s: Store) {
    forall x | Mentions(e, x) :: x in s
  }

  /** Struct literals name each field once. */
  predicate FieldsOnce(e: Expr)
    decreases e
  {
    match e
    case ArrayLit(es) => forall i | 0 <= i < |es| :: FieldsOnce(es[i])
    case StructLit(fs) =>
      && (forall i, j | 0 <= i < j < |fs| :: fs[i].key != fs[j].key)
      && (forall i | 0 <= i < |fs| :: FieldsOnce(fs[i].value))
    case MapLit(fs) => forall i | 0 <= i < |fs| :: FieldsOnce(fs[i].value)
    case _ => true
  }

  function ValueOf(st: Stmt): Expr {
    match st
    case Let(_, e) => e
    case Assign(_, e) => e
    case Push(_, e) => e
    case Write(_, _, _, e) => e
    case Compound(_, v) => Unresolved(v)
  }

  /** `x` is about to lose contents that some literal may still stand for by name. */
  predicate Overwritable(m: Lits, x: string, e: Expr) {
    Unmentioned(m, x) && !Mentions(e, x)
  }

  /** The new literal of `x` resolves every path to at least what the old one did. */
  ghost predicate Grown(m: Lits, x: string, m': Lits)
    requires Tracks(m)
  {
    && x in m && x in m' && IsLiteral(m'[x]) && m' == m[x := m'[x]]
    && Grows(m, m[x], m', m'[x])
  }

  /** What the tracker asks of a statement. A container that a tracked literal names is given
      new contents only if they resolve to at least as much; a tracked name is not declared again
      with an initializer the tracker does not know; and a field written below an index step
      leaves nothing uncovered beside it. */
  ghost predicate InFragment(m: Lits, s: Store, st: Stmt)
    requires Snapshot(m, s)
  {
    && Scoped(ValueOf(st), s) && FieldsOnce(ValueOf(st))
    && var m' := Track(m, st);
       match st
       case Let(x, e) => x !in s || m' == m - {x} || (Bound(m, e) && (Overwritable(m, x, e) || Grown(m, x, m')))
       case Assign(x, e) => m' == m - {x} || Overwritable(m, x, e) || Grown(m, x, m')
       case Write(x, path, AtField(_), e) =>
         x in m ==> m' == m - {x} || Grown(m, x, m') || (Overwritable(m, x, e) && BesideIsAllowed(m, s, st))
       case _ => true
  }

  /** The tracker knows what the expression holds. */
  predicate Bound(m: Lits, e: Expr) {
    IsLiteral(e) || (e.Var? && e.name in m)
  }

  /** A closure `c` lies in `v` where the erased path leads, then `f`, then `q`, but not at the
      place `path` itself. */
  ghost predicate Beside(v: Val, path: seq<RunStep>, f: string, q: Path, c: CapSet)
    decreases |path|
  {
    path != [] &&
    var rest := ErasePath(path[1..]) + [Field(f)] + q;
    match path[0]
    case AtField(g) => v.StructVal? && g in v.fields && Beside(v.fields[g], path[1..], f, q, c)
    case AtIndex(i) =>
      && v.ArrayVal? && i < |v.elements|
      && (|| Beside(v.elements[i], path[1..], f, q, c)
          || exists j | 0 <= j < |v.elements| && j != i :: Reach(v.elements[j], rest, c))
    case AtKey(k) =>
      && v.MapVal? && k in v.entries
      && (|| Beside(v.entries[k], path[1..], f, q, c)
          || exists l | l in v.entries && l != k :: Reach(v.entries[l], rest, c))
  }

  /** The rebuilt literal still covers every closure beside the written place. */
  ghost predicate BesideIsAllowed(m: Lits, s: Store, st: Stmt)
    requires Tracks(m) && st.Write? && st.leaf.AtField? && st.x in m && st.x in s
  {
    var p, f := ErasePath(st.path), st.leaf.name;
    var lit := Rebuild(m[st.x], p, Field(f), "", st.e);
    lit.Some? && forall q: Path, c | Beside(s[st.x], st.path, f, q, c) ::
        Allows(Resolve(m, lit.value, p + [Field(f)] + q), c)
  }

  ghost predicate Snapshot(m: Lits, s: Store) {
    && Tracks(m)
    && (forall x | x in m :: x in s && Scoped(m[x], s) && FieldsOnce(m[x]) && Covers(m, m[x], s[x]))
  }

  // ----- evaluation is covered -----

  lemma {:induction false} EvalEntriesHas(s: Store, entries: seq<Entry>, k: string) returns (i: nat)
    requires k in EvalEntries(s, entries)
    ensures i < |entries| && entries[i].key == k && EvalEntries(s, entries)[k] == Eval(s, entries[i].value)
    decreases |entries|
  {
    var last := |entries| - 1;
    if entries[last].key == k {
      i := last;
    } else {
      i := EvalEntriesHas(s, entries[..last], k);
    }
  }

  lemma {:induction false} EvalIsCovered(m: Lits, s: Store, e: Expr, path: Path, c: CapSet)
    requires Snapshot(m, s) && FieldsOnce(e) && Reach(Eval(s, e), path, c)
    ensures Allows(Resolve(m, e, path), c)
    decreases e
  {
    match e
    case Closure(_) =>
    case Unresolved(_) =>
    case Var(x) =>
      if x in m && path != [] {
        assert Covers(m, m[x], s[x]);
      }
    case StructLit(fs) =>
      var f := path[0].name;
      var i := EvalEntriesHas(s, fs, f);
      assert FindEntry(fs, f) == i;
      EvalIsCovered(m, s, fs[i].value, path[1..], c);
    case ArrayLit(es) =>
      var i :| 0 <= i < |es| && Reach(Eval(s, es[i]), path[1..], c);
      EvalIsCovered(m, s, es[i], path[1..], c);
      ResolveAllAllows(m, es, path[1..], i, c);
    case MapLit(fs) =>
      var k :| k in EvalEntries(s, fs) && Reach(EvalEntries(s, fs)[k], path[1..], c);
      var i := EvalEntriesHas(s, fs, k);
      EvalIsCovered(m, s, fs[i].value, path[1..], c);
      assert Values(fs)[i] == fs[i].value;
      ResolveAllAllows(m, Values(fs), path[1..], i, c);
  }

  lemma EvalCovered(m: Lits, s: Store, e: Expr)
    requires Snapshot(m, s) && FieldsOnce(e)
    ensures Covers(m, e, Eval(s, e))
  {
    forall path: Path, c | Reach(Eval(s, e), path, c)
      ensures Allows(Resolve(m, e, path), c)
    {
      EvalIsCovered(m, s, e, path, c);
    }
  }

  // ----- appends only widen -----

  /** `e'` is `e` with elements appended, at any depth. */
  predicate Extends(e: Expr, e': Expr)
    decreases e
  {
    || e == e'
    || (e.ArrayLit? && e'.ArrayLit? && |e.elements| <= |e'.elements|
        && forall i | 0 <= i < |e.elements| :: Extends(e.elements[i], e'.elements[i]))
    || (e.MapLit? && e'.MapLit? && |e.entries| <= |e'.entries|
        && forall i | 0 <= i < |e.entries| :: Extends(e.entries[i].value, e'.entries[i].value))
    || (e.StructLit? && e'.StructLit? && |e.fields| == |e'.fields|
        && forall i | 0 <= i < |e.fields| ::
             e.fields[i].key == e'.fields[i].key && Extends(e.fields[i].value, e'.fields[i].value))
  }

  /** Snapshots that survive are extended; dropped ones become unknown. */
  ghost predicate MapExtends(m: Lits, m': Lits) {
    forall y | y in m' :: y in m && Extends(m[y], m'[y])
  }

  lemma SameFindEntry(a: seq<Entry>, b: seq<Entry>, f: string)
    requires |a| == |b| && forall i | 0 <= i < |a| :: a[i].key == b[i].key
    ensures FindEntry(a, f) == FindEntry(b, f)
  {
  }

  lemma {:induction false} ExtendedResolvesWider(m: Lits, m': Lits, e: Expr, e': Expr, path: Path)
    requires Tracks(m) && Tracks(m') && MapExtends(m, m') && Extends(e, e')
    ensures AtLeast(Resolve(m', e', path), Resolve(m, e, path))
    decreases |path|, (if e.Var? then 1 else 0)
  {
    if path != [] {
      match e
      case Var(x) =>
        if x in m' {
          ExtendedResolvesWider(m, m', m[x], m'[x], path);
        }
      case ArrayLit(es) =>
        forall i | 0 <= i < |es|
          ensures AtLeast(Resolve(m', e'.elements[i], path[1..]), Resolve(m, es[i], path[1..]))
        {
          ExtendedResolvesWider(m, m', es[i], e'.elements[i], path[1..]);
        }
        ResolveAllGrows(m, es, m', e'.elements, path[1..]);
      case MapLit(fs) =>
        forall i | 0 <= i < |fs|
          ensures AtLeast(Resolve(m', Values(e'.entries)[i], path[1..]), Resolve(m, Values(fs)[i], path[1..]))
        {
          ExtendedResolvesWider(m, m', fs[i].value, e'.entries[i].value, path[1..]);
        }
        ResolveAllGrows(m, Values(fs), m', Values(e'.entries), path[1..]);
      case StructLit(fs) =>
        if path[0].Field? {
          SameFindEntry(fs, e'.fields, path[0].name);
          var i := FindEntry(fs, path[0].name);
          if i < |fs| {
            ExtendedResolvesWider(m, m', fs[i].value, e'.fields[i].value, path[1..]);
          }
        }
      case _ =>
    }
  }

  lemma CoversExtended(m: Lits, m': Lits, e: Expr, e': Expr, v: Val)
    requires Tracks(m) && Tracks(m') && MapExtends(m, m') && Extends(e, e') && Covers(m, e, v)
    ensures Covers(m', e', v)
  {
    forall path
      ensures AtLeast(Resolve(m', e', path), Resolve(m, e, path))
    {
      ExtendedResolvesWider(m, m', e, e', path);
    }
    CoversGrown(m, e, m', e', v);
  }

  // ----- new contents that resolve to at least as much -----

  lemma {:induction false} GrownResolvesWider(m: Lits, m': Lits, x: string, e: Expr, path: Path)
    requires Tracks(m) && Tracks(m') && Grown(m, x, m')
    ensures AtLeast(Resolve(m', e, path), Resolve(m, e, path))
    decreases |path|, (if e.Var? then 1 else 0)
  {
    if path != [] {
      match e
      case Var(y) =>
        if y == x {
          assert AtLeast(Resolve(m', m'[x], path), Resolve(m, m[x], path));
        } else if y in m {
          GrownResolvesWider(m, m', x, m[y], path);
        }
      case ArrayLit(es) => EachGrownWider(m, m', x, es, path[1..]);
      case MapLit(fs) => EachGrownWider(m, m', x, Values(fs), path[1..]);
      case StructLit(fs) =>
        if path[0].Field? && FindEntry(fs, path[0].name) < |fs| {
          GrownResolvesWider(m, m', x, fs[FindEntry(fs, path[0].name)].value, path[1..]);
        }
      case _ =>
    }
  }

  lemma {:induction false} EachGrownWider(m: Lits, m': Lits, x: string, es: seq<Expr>, path: Path)
    requires Tracks(m) && Tracks(m') && Grown(m, x, m')
    ensures AtLeast(ResolveAll(m', es, path), ResolveAll(m, es, path))
    decreases |path|, 2
  {
    forall i | 0 <= i < |es|
      ensures AtLeast(Resolve(m', es[i], path), Resolve(m, es[i], path))
    {
      GrownResolvesWider(m, m', x, es[i], path);
    }
    ResolveAllGrows(m, es, m', es, path);
  }

  lemma CoversGrownMap(m: Lits, m': Lits, x: string, e: Expr, v: Val)
    requires Tracks(m) && Tracks(m') && Grown(m, x, m') && Covers(m, e, v)
    ensures Covers(m', e, v)
  {
    forall path
      ensures AtLeast(Resolve(m', e, path), Resolve(m, e, path))
    {
      GrownResolvesWider(m, m', x, e, path);
    }
    CoversGrown(m, e, m', e, v);
  }

  // ----- overwriting a name nothing refers to -----

  /** The maps agree away from `x`, and nothing in them but `x`'s own entry can reach `x`. */
  ghost predicate AgreeAway(m: Lits, m': Lits, x: string) {
    && (forall y | y != x :: (y in m <==> y in m') && (y in m ==> m[y] == m'[y]))
    && (forall y | y in m && y != x :: !Mentions(m[y], x))
  }

  lemma {:induction false} UnmentionedResolvesSame(m: Lits, m': Lits, x: string, e: Expr, path: Path)
    requires Tracks(m) && Tracks(m') && AgreeAway(m, m', x) && !Mentions(e, x)
    ensures Resolve(m', e, path) == Resolve(m, e, path)
    decreases |path|, (if e.Var? then 1 else 0), 0
  {
    if path != [] {
      match e
      case Var(y) =>
        if y in m {
          UnmentionedResolvesSame(m, m', x, m[y], path);
        }
      case ArrayLit(es) => UnmentionedResolvesSameAll(m, m', x, es, path[1..]);
      case MapLit(fs) => UnmentionedResolvesSameAll(m, m', x, Values(fs), path[1..]);
      case StructLit(fs) =>
        if path[0].Field? {
          var i := FindEntry(fs, path[0].name);
          if i < |fs| {
            UnmentionedResolvesSame(m, m', x, fs[i].value, path[1..]);
          }
        }
      case _ =>
    }
  }

  lemma {:induction false} UnmentionedResolvesSameAll(m: Lits, m': Lits, x: string, es: seq<Expr>, path: Path)
    requires Tracks(m) && Tracks(m') && AgreeAway(m, m', x) && forall i | 0 <= i < |es| :: !Mentions(es[i], x)
    ensures ResolveAll(m', es, path) == ResolveAll(m, es, path)
    decreases |path|, 2, |es|
  {
    if es != [] {
      UnmentionedResolvesSameAll(m, m', x, es[..|es| - 1], path);
      UnmentionedResolvesSame(m, m', x, es[|es| - 1], path);
    }
  }

  lemma CoversUnmentioned(m: Lits, m': Lits, x: string, e: Expr, v: Val)
    requires Tracks(m) && Tracks(m') && AgreeAway(m, m', x) && !Mentions(e, x)
    requires Covers(m, e, v)
    ensures Covers(m', e, v)
  {
    forall path: Path, c | Reach(v, path, c)
      ensures Allows(Resolve(m', e, path), c)
    {
      UnmentionedResolvesSame(m, m', x, e, path);
    }
  }

  // ----- writes -----

  /** `path` leads through the place `p` + `leaf`. */
  predicate Through(path: Path, p: Path, leaf: PathStep) {
    && path != []
    && if p == [] then path[0] == leaf else path[0] == p[0] && Through(path[1..], p[1..], leaf)
  }

  lemma {:induction false} ThroughSplits(path: Path, p: Path, leaf: PathStep)
    requires Through(path, p, leaf)
    ensures |path| > |p| && path == p + [leaf] + path[|p| + 1..]
    decreases |p|
  {
    if p != [] {
      ThroughSplits(path[1..], p[1..], leaf);
      assert path[1..][|p[1..]| + 1..] == path[|p| + 1..];
      assert path == [path[0]] + path[1..] && p == [p[0]] + p[1..];
    }
  }

  /** What a written value reaches: the new contents below the written place, and otherwise
      what was there before. */
  lemma {:induction false} WrittenReach(v: Val, p: seq<RunStep>, leaf: RunStep, u: Val, path: Path, c: CapSet)
    requires WriteVal(v, p, leaf, u).Some? && Reach(WriteVal(v, p, leaf, u).value, path, c)
    ensures Reach(v, path, c) || (Through(path, ErasePath(p), Erase(leaf)) && |path| > |p|
                                  && Reach(u, path[|p| + 1..], c))
    decreases |p|
  {
    hide Component, Replace;
    if p == [] {
      ReplacedReach(v, leaf, u, path, c);
    } else {
      var inner := Component(v, p[0]).value;
      var updated := WriteVal(inner, p[1..], leaf, u).value;
      assert ErasePath(p)[1..] == ErasePath(p[1..]) && ErasePath(p)[0] == Erase(p[0]);
      ReplacedReach(v, p[0], updated, path, c);
      if path != [] && path[0] == Erase(p[0]) && Reach(updated, path[1..], c) {
        WrittenReach(inner, p[1..], leaf, u, path[1..], c);
        ComponentReach(v, p[0], path, c);
        if |path[1..]| > |p[1..]| {
          assert path[1..][|p[1..]| + 1..] == path[|p| + 1..];
        }
      }
    }
  }

  /** What a value with one component replaced reaches. */
  lemma ReplacedReach(v: Val, step: RunStep, u: Val, path: Path, c: CapSet)
    requires Replace(v, step, u).Some? && Reach(Replace(v, step, u).value, path, c)
    ensures Reach(v, path, c) || (path != [] && path[0] == Erase(step) && Reach(u, path[1..], c))
  {
    var v' := Replace(v, step, u).value;
    match step
    case AtField(_) =>
    case AtIndex(i) =>
      var j :| 0 <= j < |v'.elements| && Reach(v'.elements[j], path[1..], c);
      assert j != i ==> v'.elements[j] == v.elements[j];
    case AtKey(k) =>
      var l :| l in v'.entries && Reach(v'.entries[l], path[1..], c);
      assert l != k ==> l in v.entries && v'.entries[l] == v.entries[l];
  }

  lemma ComponentReach(v: Val, step: RunStep, path: Path, c: CapSet)
    requires Component(v, step).Some? && path != [] && path[0] == Erase(step)
    ensures Reach(Component(v, step).value, path[1..], c) ==> Reach(v, path, c)
  {
  }

  /** A write below an index leaf only appends. */
  lemma {:induction false} RebuildExtends(lit: Expr, path: Path, key: string, e: Expr)
    requires Rebuild(lit, path, Index, key, e).Some?
    ensures IsLiteral(lit) && IsLiteral(Rebuild(lit, path, Index, key, e).value)
    ensures Extends(lit, Rebuild(lit, path, Index, key, e).value)
    decreases |path|
  {
    if path != [] {
      match lit
      case StructLit(fields) =>
        var i := FindEntry(fields, path[0].name);
        RebuildExtends(fields[i].value, path[1..], key, e);
      case ArrayLit(es) =>
        forall i | 0 <= i < |es|
          ensures Extends(es[i], RebuildEach(es, path[1..], Index, key, e)[i])
        {
          if Rebuild(es[i], path[1..], Index, key, e).Some? {
            RebuildExtends(es[i], path[1..], key, e);
          }
        }
      case MapLit(fs) =>
        forall i | 0 <= i < |fs|
          ensures Extends(fs[i].value, RebuildEach(Values(fs), path[1..], Index, key, e)[i])
        {
          if Rebuild(fs[i].value, path[1..], Index, key, e).Some? {
            RebuildExtends(fs[i].value, path[1..], key, e);
          }
        }
    }
  }

  lemma RebuiltHere(m: Lits, lit: Expr, leaf: PathStep, key: string, e: Expr, q: Path, c: CapSet)
    requires Tracks(m) && Rebuild(lit, [], leaf, key, e).Some? && Allows(Resolve(m, e, q), c)
    ensures Allows(Resolve(m, Rebuild(lit, [], leaf, key, e).value, [leaf] + q), c)
  {
    var lit' := Rebuild(lit, [], leaf, key, e).value;
    assert ([leaf] + q)[1..] == q;
    match lit'
    case ArrayLit(es) => ResolveAllAllows(m, es, q, |es| - 1, c);
    case MapLit(fs) => ResolveAllAllows(m, Values(fs), q, |fs| - 1, c);
    case StructLit(fs) =>
      var i := FindEntry(lit.fields, leaf.name);
      assert fs[i] == Entry(leaf.name, e);
      assert FindEntry(fs, leaf.name) == i;
  }

  /** What the written expression allows, the rebuilt literal allows at the written place. */
  lemma {:induction false} RebuiltAllowsWritten(m: Lits, lit: Expr, path: Path, leaf: PathStep, key: string,
                                                e: Expr, q: Path, c: CapSet)
    requires Tracks(m) && Rebuild(lit, path, leaf, key, e).Some? && Allows(Resolve(m, e, q), c)
    ensures Allows(Resolve(m, Rebuild(lit, path, leaf, key, e).value, path + [leaf] + q), c)
    decreases |path|, 0
  {
    hide Allows;
    var whole := path + [leaf] + q;
    var lit' := Rebuild(lit, path, leaf, key, e).value;
    if path == [] {
      RebuiltHere(m, lit, leaf, key, e, q, c);
      assert whole == [leaf] + q;
    } else {
      assert whole[0] == path[0] && whole[1..] == path[1..] + [leaf] + q;
      match lit
      case StructLit(fields) =>
        RebuiltAllowsWritten(m, fields[FindEntry(fields, path[0].name)].value, path[1..], leaf, key, e, q, c);
        SameFindEntry(fields, lit'.fields, path[0].name);
      case ArrayLit(es) => EachAllowsWritten(m, es, path[1..], leaf, key, e, q, c);
      case MapLit(fs) =>
        EachAllowsWritten(m, Values(fs), path[1..], leaf, key, e, q, c);
        assert Values(lit'.entries) == RebuildEach(Values(fs), path[1..], leaf, key, e);
    }
  }

  lemma {:induction false} EachAllowsWritten(m: Lits, es: seq<Expr>, path: Path, leaf: PathStep, key: string,
                                             e: Expr, q: Path, c: CapSet)
    requires Tracks(m) && AnyRebuilds(es, path, leaf, key, e) && Allows(Resolve(m, e, q), c)
    ensures Allows(ResolveAll(m, RebuildEach(es, path, leaf, key, e), path + [leaf] + q), c)
    decreases |path|, 1
  {
    hide Allows, Resolve, ResolveAll;
    var i :| 0 <= i < |es| && Rebuild(es[i], path, leaf, key, e).Some?;
    RebuiltAllowsWritten(m, es[i], path, leaf, key, e, q, c);
    ResolveAllAllows(m, RebuildEach(es, path, leaf, key, e), path + [leaf] + q, i, c);
  }

  /** Away from a field that is overwritten in place, the literal resolves to no less. */
  lemma {:induction false} RebuiltElsewhere(m: Lits, lit: Expr, p: Path, f: string, key: string, e: Expr, path: Path)
    requires Tracks(m) && Rebuild(lit, p, Field(f), key, e).Some?
    requires !Through(path, p, Field(f))
    ensures AtLeast(Resolve(m, Rebuild(lit, p, Field(f), key, e).value, path), Resolve(m, lit, path))
    decreases |p|, 0
  {
    var lit' := Rebuild(lit, p, Field(f), key, e).value;
    if path != [] {
      if p == [] {
        if path[0].Field? {
          OtherFieldSame(lit.fields, f, path[0].name, e);
        }
      } else if path[0] == p[0] {
        RebuiltBeyond(m, lit, p, f, key, e, path);
      } else if path[0].Field? && p[0].Field? {
        SameFindEntry(lit.fields, lit'.fields, path[0].name);
        var i := FindEntry(lit.fields, p[0].name);
        assert forall k | 0 <= k < |lit.fields| && k != i :: lit'.fields[k] == lit.fields[k];
      }
    }
  }

  /** The paths part further on. */
  lemma {:induction false} RebuiltBeyond(m: Lits, lit: Expr, p: Path, f: string, key: string, e: Expr, path: Path)
    requires Tracks(m) && Rebuild(lit, p, Field(f), key, e).Some?
    requires p != [] && path != [] && path[0] == p[0] && !Through(path, p, Field(f))
    ensures AtLeast(Resolve(m, Rebuild(lit, p, Field(f), key, e).value, path), Resolve(m, lit, path))
    decreases |p| - 1, 2
  {
    hide AtLeast;
    var lit' := Rebuild(lit, p, Field(f), key, e).value;
    match lit
    case StructLit(fields) =>
      SameFindEntry(fields, lit'.fields, path[0].name);
      RebuiltElsewhere(m, fields[FindEntry(fields, p[0].name)].value, p[1..], f, key, e, path[1..]);
    case ArrayLit(es) => EachElsewhere(m, es, p[1..], f, key, e, path[1..]);
    case MapLit(fs) =>
      EachElsewhere(m, Values(fs), p[1..], f, key, e, path[1..]);
      assert Values(lit'.entries) == RebuildEach(Values(fs), p[1..], Field(f), key, e);
  }

  lemma {:induction false} EachElsewhere(m: Lits, es: seq<Expr>, p: Path, f: string, key: string, e: Expr, path: Path)
    requires Tracks(m) && !Through(path, p, Field(f))
    ensures AtLeast(ResolveAll(m, RebuildEach(es, p, Field(f), key, e), path), ResolveAll(m, es, path))
    decreases |p|, 1
  {
    var es' := RebuildEach(es, p, Field(f), key, e);
    forall i | 0 <= i < |es|
      ensures AtLeast(Resolve(m, es'[i], path), Resolve(m, es[i], path))
    {
      if Rebuild(es[i], p, Field(f), key, e).Some? {
        RebuiltElsewhere(m, es[i], p, f, key, e, path);
      }
    }
    ResolveAllGrows(m, es, m, es', path);
  }

  /** Overwriting or adding field `f` leaves the first entry of every other field alone. */
  lemma {:induction false} OtherFieldSame(fields: seq<Entry>, f: string, g: string, e: Expr)
    requires f != g
    ensures var i := FindEntry(fields, f);
            var fields' := if i < |fields| then fields[i := Entry(f, e)] else fields + [Entry(f, e)];
            var k, k' := FindEntry(fields, g), FindEntry(fields', g);
            (k < |fields| <==> k' < |fields'|) && (k < |fields| ==> k' == k && fields'[k] == fields[k])
  {
    var i := FindEntry(fields, f);
    var fields' := if i < |fields| then fields[i := Entry(f, e)] else fields + [Entry(f, e)];
    var k, k' := FindEntry(fields, g), FindEntry(fields', g);
    if k < |fields| {
      assert fields'[k] == fields[k] && fields'[k].key == g;
      assert k' <= k;
      assert fields'[k'].key == g;
      assert fields[k'].key == g;
    }
    if k' < |fields'| {
      assert fields'[k'].key == g;
      assert k' < |fields| && fields[k'].key == g;
    }
  }

  // ----- every statement keeps the snapshots -----

  /** `e'` names what `lit` and `e` name, and its structs are as tidy as theirs. */
  ghost predicate Tidier(lit: Expr, e: Expr, e': Expr) {
    && (forall x | Mentions(e', x) :: Mentions(lit, x) || Mentions(e, x))
    && (FieldsOnce(lit) && FieldsOnce(e) ==> FieldsOnce(e'))
  }

  lemma {:induction false} RebuildStaysTidy(lit: Expr, p: Path, leaf: PathStep, key: string, e: Expr)
    requires Rebuild(lit, p, leaf, key, e).Some?
    ensures IsLiteral(Rebuild(lit, p, leaf, key, e).value) && Tidier(lit, e, Rebuild(lit, p, leaf, key, e).value)
    decreases |p|, 0
  {
    hide Tidier;
    if p == [] {
      HereStaysTidy(lit, leaf, key, e);
    } else {
      match lit
      case StructLit(fields) =>
        var i := FindEntry(fields, p[0].name);
        RebuildStaysTidy(fields[i].value, p[1..], leaf, key, e);
        StructStaysTidy(fields, i, Rebuild(fields[i].value, p[1..], leaf, key, e).value, e);
      case ArrayLit(es) =>
        EachStaysTidy(es, p[1..], leaf, key, e);
        ArrayStaysTidy(es, RebuildEach(es, p[1..], leaf, key, e), e);
      case MapLit(fs) =>
        EachStaysTidy(Values(fs), p[1..], leaf, key, e);
        MapStaysTidy(fs, Rebuild(lit, p, leaf, key, e).value.entries, e);
    }
  }

  lemma HereStaysTidy(lit: Expr, leaf: PathStep, key: string, e: Expr)
    requires Rebuild(lit, [], leaf, key, e).Some?
    ensures IsLiteral(Rebuild(lit, [], leaf, key, e).value) && Tidier(lit, e, Rebuild(lit, [], leaf, key, e).value)
  {
  }

  lemma ArrayStaysTidy(es: seq<Expr>, es': seq<Expr>, e: Expr)
    requires |es'| == |es| && forall i | 0 <= i < |es| :: Tidier(es[i], e, es'[i])
    ensures Tidier(ArrayLit(es), e, ArrayLit(es'))
  {
  }

  lemma MapStaysTidy(fs: seq<Entry>, fs': seq<Entry>, e: Expr)
    requires |fs'| == |fs| && forall i | 0 <= i < |fs| :: Tidier(fs[i].value, e, fs'[i].value)
    ensures Tidier(MapLit(fs), e, MapLit(fs'))
  {
  }

  lemma StructStaysTidy(fields: seq<Entry>, i: nat, u: Expr, e: Expr)
    requires i < |fields| && Tidier(fields[i].value, e, u)
    ensures Tidier(StructLit(fields), e, StructLit(fields[i := Entry(fields[i].key, u)]))
  {
  }

  lemma {:induction false} EachStaysTidy(es: seq<Expr>, p: Path, leaf: PathStep, key: string, e: Expr)
    ensures forall i | 0 <= i < |es| :: Tidier(es[i], e, RebuildEach(es, p, leaf, key, e)[i])
    decreases |p|, 1
  {
    forall i | 0 <= i < |es|
      ensures Tidier(es[i], e, RebuildEach(es, p, leaf, key, e)[i])
    {
      if Rebuild(es[i], p, leaf, key, e).Some? {
        RebuildStaysTidy(es[i], p, leaf, key, e);
      }
    }
  }

  /** Dropping a snapshot. */
  lemma DropKeeps(m: Lits, s: Store, x: string, v: Val)
    requires Snapshot(m, s)
    ensures Snapshot(m - {x}, s[x := v])
  {
    var m' := m - {x};
    forall y | y in m'
      ensures Scoped(m'[y], s[x := v]) && Covers(m', m'[y], s[x := v][y])
    {
      CoversExtended(m, m', m[y], m[y], s[y]);
    }
  }

  /** Giving `x` a new literal when nothing else names it. */
  lemma OverwriteKeeps(m: Lits, s: Store, x: string, lit: Expr, v: Val)
    requires Snapshot(m, s) && IsLiteral(lit) && Scoped(lit, s) && FieldsOnce(lit)
    requires !Mentions(lit, x) && forall y | y in m && y != x :: !Mentions(m[y], x)
    requires Covers(m, lit, v)
    ensures Snapshot(m[x := lit], s[x := v])
  {
    var m', s' := m[x := lit], s[x := v];
    forall y | y in m'
      ensures Scoped(m'[y], s') && Covers(m', m'[y], s'[y])
    {
      CoversUnmentioned(m, m', x, m'[y], s'[y]);
    }
  }

  /** Giving `x` a literal that resolves to at least as much keeps every snapshot, whatever names
      `x`. */
  lemma GrowKeeps(m: Lits, s: Store, x: string, lit: Expr, v: Val)
    requires Snapshot(m, s) && IsLiteral(lit) && Scoped(lit, s) && FieldsOnce(lit)
    requires Grown(m, x, m[x := lit]) && Covers(m[x := lit], lit, v)
    ensures Snapshot(m[x := lit], s[x := v])
  {
    var m', s' := m[x := lit], s[x := v];
    forall y | y in m'
      ensures Scoped(m'[y], s') && Covers(m', m'[y], s'[y])
    {
      if y != x {
        CoversGrownMap(m, m', x, m[y], s[y]);
      }
    }
  }

  /** Extending the literal of `x`. */
  lemma ExtendKeeps(m: Lits, s: Store, x: string, lit: Expr, v: Val)
    requires Snapshot(m, s) && x in m && IsLiteral(lit) && Extends(m[x], lit)
    requires Scoped(lit, s) && FieldsOnce(lit)
    requires Covers(m[x := lit], lit, v)
    ensures Snapshot(m[x := lit], s[x := v])
  {
    forall path
      ensures AtLeast(Resolve(m[x := lit], lit, path), Resolve(m, m[x], path))
    {
      ExtendedResolvesWider(m, m[x := lit], m[x], lit, path);
    }
    GrowKeeps(m, s, x, lit, v);
  }

  /** Binding a literal, or an alias, that resolves to at least as much. */
  lemma BindGrownKeeps(m: Lits, s: Store, x: string, e: Expr)
    requires Snapshot(m, s) && Scoped(e, s) && FieldsOnce(e) && Bound(m, e)
    requires Grown(m, x, m[x := if e.Var? then m[e.name] else e])
    ensures Snapshot(m[x := if e.Var? then m[e.name] else e], s[x := Eval(s, e)])
  {
    var lit := if e.Var? then m[e.name] else e;
    EvalCovered(m, s, e);
    assert Covers(m, lit, Eval(s, e));
    CoversGrownMap(m, m[x := lit], x, lit, Eval(s, e));
    GrowKeeps(m, s, x, lit, Eval(s, e));
  }

  /** A write after which the literal resolves to at least as much. */
  lemma WriteGrownKeeps(m: Lits, s: Store, st: Stmt)
    requires st.Write? && Snapshot(m, s) && Scoped(st.e, s) && FieldsOnce(st.e) && Exec(s, st).Some?
    requires Grown(m, st.x, Track(m, st))
    requires Rebuild(m[st.x], ErasePath(st.path), Erase(st.leaf), LeafKey(st.leaf), st.e).Some?
    ensures Snapshot(Track(m, st), Exec(s, st).value)
  {
    var x, p, leaf, u := st.x, ErasePath(st.path), Erase(st.leaf), Eval(s, st.e);
    var lit := Rebuild(m[x], p, leaf, LeafKey(st.leaf), st.e).value;
    var v := WriteVal(s[x], st.path, st.leaf, u).value;
    var m' := m[x := lit];
    assert Track(m, st) == m';
    RebuildStaysTidy(m[x], p, leaf, LeafKey(st.leaf), st.e);
    EvalCovered(m, s, st.e);
    CoversGrownMap(m, m', x, st.e, u);
    hide Track, Exec, Rebuild, WriteVal, Eval, Mentions, FieldsOnce;
    forall path: Path, c | Reach(v, path, c)
      ensures Allows(Resolve(m', lit, path), c)
    {
      WrittenReach(s[x], st.path, st.leaf, u, path, c);
      if Reach(s[x], path, c) {
        assert AtLeast(Resolve(m', lit, path), Resolve(m, m[x], path));
      } else {
        ThroughSplits(path, p, leaf);
        RebuiltAllowsWritten(m', m[x], p, leaf, LeafKey(st.leaf), st.e, path[|p| + 1..], c);
      }
    }
    GrowKeeps(m, s, x, lit, v);
  }

  lemma BindKeeps(m: Lits, s: Store, x: string, e: Expr)
    requires Snapshot(m, s) && Scoped(e, s) && FieldsOnce(e)
    requires IsLiteral(e) || (e.Var? && e.name in m)
    requires !Mentions(e, x) && forall y | y in m && y != x :: !Mentions(m[y], x)
    requires e.Var? ==> e.name != x
    ensures Snapshot(m[x := if e.Var? then m[e.name] else e], s[x := Eval(s, e)])
  {
    EvalCovered(m, s, e);
    OverwriteKeeps(m, s, x, if e.Var? then m[e.name] else e, Eval(s, e));
  }

  lemma PushKeeps(m: Lits, s: Store, x: string, e: Expr)
    requires Snapshot(m, s) && Scoped(e, s) && FieldsOnce(e)
    requires x in m && m[x].ArrayLit? && s[x].ArrayVal?
    ensures Snapshot(m[x := ArrayLit(m[x].elements + [e])], s[x := ArrayVal(s[x].elements + [Eval(s, e)])])
  {
    var es, lit := m[x].elements, ArrayLit(m[x].elements + [e]);
    var m', v := m[x := lit], ArrayVal(s[x].elements + [Eval(s, e)]);
    assert Extends(m[x], lit) by {
      assert forall i | 0 <= i < |es| :: Extends(es[i], lit.elements[i]);
    }
    CoversExtended(m, m', m[x], lit, s[x]);
    EvalCovered(m, s, e);
    CoversExtended(m, m', e, e, Eval(s, e));
    forall path: Path, c | Reach(v, path, c)
      ensures Allows(Resolve(m', lit, path), c)
    {
      var i :| 0 <= i < |v.elements| && Reach(v.elements[i], path[1..], c);
      if i < |s[x].elements| {
        assert Reach(s[x], path, c);
      } else {
        ResolveAllAllows(m', lit.elements, path[1..], |es|, c);
      }
    }
    AppendTidy(es, e);
    ExtendKeeps(m, s, x, lit, v);
  }

  lemma AppendTidy(es: seq<Expr>, e: Expr)
    ensures forall x | Mentions(ArrayLit(es + [e]), x) :: Mentions(ArrayLit(es), x) || Mentions(e, x)
    ensures FieldsOnce(ArrayLit(es)) && FieldsOnce(e) ==> FieldsOnce(ArrayLit(es + [e]))
  {
  }

  lemma IndexWriteKeeps(m: Lits, s: Store, st: Stmt)
    requires st.Write? && !st.leaf.AtField? && Snapshot(m, s) && InFragment(m, s, st) && Exec(s, st).Some?
    requires st.x in m && Rebuild(m[st.x], ErasePath(st.path), Erase(st.leaf), LeafKey(st.leaf), st.e).Some?
    ensures Snapshot(Track(m, st), Exec(s, st).value)
  {
    var x, p, u := st.x, ErasePath(st.path), Eval(s, st.e);
    var lit := Rebuild(m[x], p, Index, LeafKey(st.leaf), st.e).value;
    var m', v := m[x := lit], WriteVal(s[x], st.path, st.leaf, u).value;
    RebuildExtends(m[x], p, LeafKey(st.leaf), st.e);
    RebuildStaysTidy(m[x], p, Index, LeafKey(st.leaf), st.e);
    CoversExtended(m, m', m[x], lit, s[x]);
    EvalCovered(m, s, st.e);
    CoversExtended(m, m', st.e, st.e, u);
    forall path: Path, c | Reach(v, path, c)
      ensures Allows(Resolve(m', lit, path), c)
    {
      WrittenReach(s[x], st.path, st.leaf, u, path, c);
      if !Reach(s[x], path, c) {
        ThroughSplits(path, p, Index);
        RebuiltAllowsWritten(m', m[x], p, Index, LeafKey(st.leaf), st.e, path[|p| + 1..], c);
      }
    }
    ExtendKeeps(m, s, x, lit, v);
  }

  /** What a written value holds where the field was written: the new contents, and whatever
      lies beside the written place. */
  lemma {:induction false} WrittenBeside(v: Val, path: seq<RunStep>, f: string, u: Val, q: Path, c: CapSet)
    requires WriteVal(v, path, AtField(f), u).Some?
    ensures Reach(WriteVal(v, path, AtField(f), u).value, ErasePath(path) + [Field(f)] + q, c)
       <==> Beside(v, path, f, q, c) || Reach(u, q, c)
    decreases |path|
  {
    var v' := WriteVal(v, path, AtField(f), u).value;
    var whole := ErasePath(path) + [Field(f)] + q;
    if path == [] {
      assert whole[1..] == q;
    } else {
      var rest := ErasePath(path[1..]) + [Field(f)] + q;
      var inner := Component(v, path[0]).value;
      assert ErasePath(path) == [Erase(path[0])] + ErasePath(path[1..]);
      assert whole[0] == Erase(path[0]) && whole[1..] == rest;
      WrittenBeside(inner, path[1..], f, u, q, c);
      WrittenBesideStep(v, path, f, u, q, c);
    }
  }

  lemma WrittenBesideStep(v: Val, path: seq<RunStep>, f: string, u: Val, q: Path, c: CapSet)
    requires path != [] && WriteVal(v, path, AtField(f), u).Some?
    ensures var rest := ErasePath(path[1..]) + [Field(f)] + q;
            var inner := Component(v, path[0]).value;
            var updated := WriteVal(inner, path[1..], AtField(f), u).value;
            (Reach(updated, rest, c) <==> Beside(inner, path[1..], f, q, c) || Reach(u, q, c)) ==>
              (Reach(WriteVal(v, path, AtField(f), u).value, [Erase(path[0])] + rest, c)
               <==> Beside(v, path, f, q, c) || Reach(u, q, c))
  {
    var v' := WriteVal(v, path, AtField(f), u).value;
    var rest := ErasePath(path[1..]) + [Field(f)] + q;
    var whole := [Erase(path[0])] + rest;
    assert whole[1..] == rest;
    var updated := WriteVal(Component(v, path[0]).value, path[1..], AtField(f), u).value;
    match path[0]
    case AtField(g) =>
    case AtIndex(i) =>
      assert v'.elements == v.elements[i := updated];
      assert Reach(v', whole, c) <==> exists j | 0 <= j < |v'.elements| :: Reach(v'.elements[j], rest, c);
      if Reach(updated, rest, c) {
        assert Reach(v'.elements[i], rest, c);
      }
      if j :| 0 <= j < |v.elements| && j != i && Reach(v.elements[j], rest, c) {
        assert Reach(v'.elements[j], rest, c);
      }
    case AtKey(k) =>
      assert v'.entries == v.entries[k := updated];
      assert Reach(v', whole, c) <==> exists l | l in v'.entries :: Reach(v'.entries[l], rest, c);
      if Reach(updated, rest, c) {
        assert Reach(v'.entries[k], rest, c);
      }
      if l :| l in v.entries && l != k && Reach(v.entries[l], rest, c) {
        assert Reach(v'.entries[l], rest, c);
      }
  }

  /** A field write into a tracked container that nothing names keeps the snapshot exactly when
      the rebuilt literal covers every closure beside the written place. */
  lemma FieldWriteExactly(m: Lits, s: Store, st: Stmt)
    requires Snapshot(m, s) && st.Write? && st.leaf.AtField? && st.x in m && Exec(s, st).Some?
    requires Scoped(st.e, s) && FieldsOnce(st.e) && Overwritable(m, st.x, st.e)
    requires Rebuild(m[st.x], ErasePath(st.path), Field(st.leaf.name), "", st.e).Some?
    ensures Snapshot(Track(m, st), Exec(s, st).value) <==> BesideIsAllowed(m, s, st)
  {
    var x, p, u, f := st.x, ErasePath(st.path), Eval(s, st.e), st.leaf.name;
    var lit := Rebuild(m[x], p, Field(f), "", st.e).value;
    var v := WriteVal(s[x], st.path, st.leaf, u).value;
    RebuildStaysTidy(m[x], p, Field(f), "", st.e);
    assert Track(m, st) == m[x := lit] && Exec(s, st).value == s[x := v];
    hide Resolve, Rebuild, Beside, WriteVal, Eval, Mentions, FieldsOnce, Reach, ErasePath;
    if BesideIsAllowed(m, s, st) {
      FieldWriteCovers(m, s, st);
      OverwriteKeeps(m, s, x, lit, v);
    }
    if Snapshot(m[x := lit], s[x := v]) {
      assert m[x := lit][x] == lit && s[x := v][x] == v && x in m[x := lit];
      WrittenCovers(m, s, st, lit);
    }
  }

  /** Once covered, the written value has nothing uncovered beside the written place. */
  lemma WrittenCovers(m: Lits, s: Store, st: Stmt, lit: Expr)
    requires Tracks(m) && st.Write? && st.leaf.AtField? && st.x in m && st.x in s && Exec(s, st).Some?
    requires Unmentioned(m, st.x) && IsLiteral(lit) && !Mentions(lit, st.x)
    requires Covers(m[st.x := lit], lit, WriteVal(s[st.x], st.path, st.leaf, Eval(s, st.e)).value)
    ensures forall q: Path, c | Beside(s[st.x], st.path, st.leaf.name, q, c) ::
              Allows(Resolve(m, lit, ErasePath(st.path) + [Field(st.leaf.name)] + q), c)
  {
    hide Resolve, Beside, WriteVal, Eval, Mentions, Reach, ErasePath;
    var x, p, f := st.x, ErasePath(st.path), st.leaf.name;
    forall q: Path, c | Beside(s[x], st.path, f, q, c)
      ensures Allows(Resolve(m, lit, p + [Field(f)] + q), c)
    {
      WrittenBeside(s[x], st.path, f, Eval(s, st.e), q, c);
      UnmentionedResolvesSame(m, m[x := lit], x, lit, p + [Field(f)] + q);
    }
  }

  lemma FieldWriteCovers(m: Lits, s: Store, st: Stmt)
    requires Snapshot(m, s) && st.Write? && st.leaf.AtField? && st.x in m && Exec(s, st).Some?
    requires Scoped(st.e, s) && FieldsOnce(st.e) && BesideIsAllowed(m, s, st)
    ensures var lit := Rebuild(m[st.x], ErasePath(st.path), Field(st.leaf.name), "", st.e).value;
            Covers(m, lit, WriteVal(s[st.x], st.path, st.leaf, Eval(s, st.e)).value)
  {
    var x, p, u, f := st.x, ErasePath(st.path), Eval(s, st.e), st.leaf.name;
    var lit := Rebuild(m[x], p, Field(f), "", st.e).value;
    var v := WriteVal(s[x], st.path, st.leaf, u).value;
    EvalCovered(m, s, st.e);
    forall path: Path, c | Reach(v, path, c)
      ensures Allows(Resolve(m, lit, path), c)
    {
      if Through(path, p, Field(f)) {
        ThroughSplits(path, p, Field(f));
        var q := path[|p| + 1..];
        WrittenBeside(s[x], st.path, f, u, q, c);
        if Reach(u, q, c) {
          RebuiltAllowsWritten(m, m[x], p, Field(f), "", st.e, q, c);
        }
      } else {
        WrittenReach(s[x], st.path, st.leaf, u, path, c);
        RebuiltElsewhere(m, m[x], p, f, "", st.e, path);
      }
    }
  }

  lemma FieldWriteKeeps(m: Lits, s: Store, st: Stmt)
    requires st.Write? && st.leaf.AtField? && Snapshot(m, s) && InFragment(m, s, st) && Exec(s, st).Some?
    requires st.x in m && Rebuild(m[st.x], ErasePath(st.path), Erase(st.leaf), LeafKey(st.leaf), st.e).Some?
    ensures Snapshot(Track(m, st), Exec(s, st).value)
  {
    assert st.x in Track(m, st);
    if Grown(m, st.x, Track(m, st)) {
      WriteGrownKeeps(m, s, st);
    } else {
      FieldWriteExactly(m, s, st);
    }
  }

  lemma LetKeeps(m: Lits, s: Store, x: string, e: Expr)
    requires Snapshot(m, s) && InFragment(m, s, Let(x, e))
    ensures Snapshot(Track(m, Let(x, e)), s[x := Eval(s, e)])
  {
    var m' := Track(m, Let(x, e));
    assert x !in m ==> m - {x} == m;
    if m' == m - {x} {
      DropKeeps(m, s, x, Eval(s, e));
    } else {
      if x !in s {
        FreshIsOverwritable(m, s, x, e);
      }
      if Overwritable(m, x, e) {
        BindKeeps(m, s, x, e);
      } else {
        BindGrownKeeps(m, s, x, e);
      }
    }
  }

  lemma FreshIsOverwritable(m: Lits, s: Store, x: string, e: Expr)
    requires Snapshot(m, s) && Scoped(e, s) && x !in s
    ensures Overwritable(m, x, e)
  {
    forall y | y in m
      ensures !Mentions(m[y], x)
    {
      assert Scoped(m[y], s);
    }
  }

  lemma StatementKeepsSnapshot(m: Lits, s: Store, st: Stmt)
    requires Snapshot(m, s) && InFragment(m, s, st) && Exec(s, st).Some?
    ensures Snapshot(Track(m, st), Exec(s, st).value)
  {
    match st
    case Let(x, e) => LetKeeps(m, s, x, e);
    case Assign(x, e) =>
      if Track(m, st) == m - {x} {
        DropKeeps(m, s, x, Eval(s, e));
      } else if Overwritable(m, x, e) {
        BindKeeps(m, s, x, e);
      } else {
        BindGrownKeeps(m, s, x, e);
      }
    case Push(x, e) =>
      if x in m && m[x].ArrayLit? {
        PushKeeps(m, s, x, e);
      } else {
        DropKeeps(m, s, x, Exec(s, st).value[x]);
      }
    case Write(x, path, leaf, e) =>
      if x !in m || Rebuild(m[x], ErasePath(path), Erase(leaf), LeafKey(leaf), e).None? {
        DropKeeps(m, s, x, Exec(s, st).value[x]);
        assert x !in m ==> m - {x} == m;
      } else if leaf.AtField? {
        FieldWriteKeeps(m, s, st);
      } else {
        IndexWriteKeeps(m, s, st);
      }
    case Compound(x, v) => DropKeeps(m, s, x, v);
  }

  // ----- whole bodies -----

  function ExecAll(s: Store, body: seq<Stmt>): Option<Store> {
    if body == [] then Some(s)
    else match ExecAll(s, body[..|body| - 1])
      case None => None
      case Some(s') => Exec(s', body[|body| - 1])
  }

  function TrackAll(m: Lits, body: seq<Stmt>): Lits {
    if body == [] then m else Track(TrackAll(m, body[..|body| - 1]), body[|body| - 1])
  }

  /** Every statement is in the fragment where it executes. */
  ghost predicate BodyInFragment(body: seq<Stmt>) {
    body != [] ==>
      var init := body[..|body| - 1];
      && BodyInFragment(init)
      && (ExecAll(map[], init).Some? && Snapshot(TrackAll(map[], init), ExecAll(map[], init).value) ==>
            InFragment(TrackAll(map[], init), ExecAll(map[], init).value, body[|body| - 1]))
  }

  method BuildLocalContainerLits(body: seq<Stmt>) returns (locals: Lits)
    ensures locals == TrackAll(map[], body)
  {
    locals := map[];
    for k := 0 to |body|
      invariant locals == TrackAll(map[], body[..k])
    {
      locals := Track(locals, body[k]);
      assert body[..k + 1][..k] == body[..k];
    }
    assert body[..|body|] == body;
  }

  lemma {:induction false} BodyKeepsSnapshot(body: seq<Stmt>)
    requires ExecAll(map[], body).Some? && BodyInFragment(body)
    ensures Snapshot(TrackAll(map[], body), ExecAll(map[], body).value)
    decreases |body|
  {
    if body != [] {
      var init := body[..|body| - 1];
      BodyKeepsSnapshot(init);
      StatementKeepsSnapshot(TrackAll(map[], init), ExecAll(map[], init).value, body[|body| - 1]);
    }
  }

  /** Whenever a body in the fragment runs to its end and resolution of a path into one of its
      locals answers a known set, that set contains the capabilities of every closure that lies
      in the local along the path. */
  lemma SnapshotsCoverTheRun(body: seq<Stmt>, x: string, path: Path, c: CapSet)
    requires ExecAll(map[], body).Some? && BodyInFragment(body)
    requires path != [] && x in ExecAll(map[], body).value && Reach(ExecAll(map[], body).value[x], path, c)
    ensures Tracks(TrackAll(map[], body))
    ensures Resolve(TrackAll(map[], body), Var(x), path).Known?
            ==> c <= Resolve(TrackAll(map[], body), Var(x), path).caps
  {
    BodyKeepsSnapshot(body);
    var m := TrackAll(map[], body);
    if x in m {
      assert Allows(Resolve(m, m[x], path), c);
    }
  }

  // ----- the fragment, read off the text -----

  /** The same of a statement, asked of the tracked map, the names declared before, and the text:
      a field write goes through fields only. */
  ghost predicate InText(m: Lits, names: set<string>, st: Stmt)
    requires Tracks(m)
  {
    && (forall x | Mentions(ValueOf(st), x) :: x in names) && FieldsOnce(ValueOf(st))
    && var m' := Track(m, st);
       match st
       case Let(x, e) => x !in names || m' == m - {x} || (Bound(m, e) && (Overwritable(m, x, e) || Grown(m, x, m')))
       case Assign(x, e) => m' == m - {x} || Overwritable(m, x, e) || Grown(m, x, m')
       case Write(x, path, AtField(_), e) =>
         x in m ==> m' == m - {x} || Grown(m, x, m') || (Overwritable(m, x, e) && ThroughFields(path))
       case _ => true
  }

  predicate ThroughFields(path: seq<RunStep>) {
    forall i | 0 <= i < |path| :: path[i].AtField?
  }

  function Names(body: seq<Stmt>): set<string> {
    if body == [] then {}
    else
      var last := body[|body| - 1];
      Names(body[..|body| - 1]) + if last.Let? then {last.x} else {}
  }

  ghost predicate BodyInText(body: seq<Stmt>) {
    body != [] ==>
      var init := body[..|body| - 1];
      var m := TrackAll(map[], init);
      BodyInText(init) && Tracks(m) && InText(m, Names(init), body[|body| - 1])
  }

  /** The tracked map never holds anything but literals: `BodyInText` asks nothing by saying so. */
  lemma {:induction false} TrackAllTracks(body: seq<Stmt>)
    ensures Tracks(TrackAll(map[], body))
    decreases |body|
  {
    if body != [] {
      var init := body[..|body| - 1];
      TrackAllTracks(init);
      TrackTracks(TrackAll(map[], init), body[|body| - 1]);
    }
  }

  lemma TrackTracks(m: Lits, st: Stmt)
    requires Tracks(m)
    ensures Tracks(Track(m, st))
  {
    if st.Write? && st.x in m {
      var p, leaf := ErasePath(st.path), Erase(st.leaf);
      if Rebuild(m[st.x], p, leaf, LeafKey(st.leaf), st.e).Some? {
        RebuildStaysTidy(m[st.x], p, leaf, LeafKey(st.leaf), st.e);
      }
    }
  }

  /** The store holds the declared names. */
  lemma {:induction false} NamesAreHeld(body: seq<Stmt>)
    requires ExecAll(map[], body).Some?
    ensures ExecAll(map[], body).value.Keys == Names(body)
    decreases |body|
  {
    if body != [] {
      var init, last := body[..|body| - 1], body[|body| - 1];
      NamesAreHeld(init);
      StatementHolds(ExecAll(map[], init).value, last);
    }
  }

  lemma StatementHolds(s: Store, st: Stmt)
    requires Exec(s, st).Some?
    ensures Exec(s, st).value.Keys == s.Keys + if st.Let? then {st.x} else {}
  {
    hide Eval, WriteVal;
  }

  lemma TextIsEnough(m: Lits, s: Store, st: Stmt)
    requires Snapshot(m, s) && InText(m, s.Keys, st)
    ensures InFragment(m, s, st)
  {
    if st.Write? && st.leaf.AtField? && st.x in m && ThroughFields(st.path) {
      hide Beside, Resolve, Allows;
      forall q: Path, c
        ensures !Beside(s[st.x], st.path, st.leaf.name, q, c)
      {
        NothingBesideFields(s[st.x], st.path, st.leaf.name, q, c);
      }
    }
  }

  lemma {:induction false} BodyTextIsEnough(body: seq<Stmt>)
    requires BodyInText(body)
    ensures BodyInFragment(body)
    decreases |body|
  {
    if body != [] {
      var init := body[..|body| - 1];
      BodyTextIsEnough(init);
      var m, s := TrackAll(map[], init), ExecAll(map[], init);
      if s.Some? && Snapshot(m, s.value) {
        NamesAreHeld(init);
        TextIsEnough(m, s.value, body[|body| - 1]);
      }
    }
  }

  /** The same for every body whose text is in the fragment. */
  lemma TextSnapshotsCoverTheRun(body: seq<Stmt>, x: string, path: Path, c: CapSet)
    requires ExecAll(map[], body).Some? && BodyInText(body)
    requires path != [] && x in ExecAll(map[], body).value && Reach(ExecAll(map[], body).value[x], path, c)
    ensures Tracks(TrackAll(map[], body))
    ensures Resolve(TrackAll(map[], body), Var(x), path).Known?
            ==> c <= Resolve(TrackAll(map[], body), Var(x), path).caps
  {
    BodyTextIsEnough(body);
    SnapshotsCoverTheRun(body, x, path, c);
  }

  // ----- why the fragment stops where it does -----

  /** Every element along the path takes the field write: no name or call stands in the way. */
  predicate Takes(lit: Expr, p: Path)
    decreases |p|
  {
    if p == [] then lit.StructLit?
    else match (p[0], lit)
      case (Field(g), StructLit(fs)) => FindEntry(fs, g) < |fs| && Takes(fs[FindEntry(fs, g)].value, p[1..])
      case (Index, ArrayLit(es)) => es != [] && forall i | 0 <= i < |es| :: Takes(es[i], p[1..])
      case (Index, MapLit(fs)) => fs != [] && forall i | 0 <= i < |fs| :: Takes(fs[i].value, p[1..])
      case _ => false
  }

  lemma {:induction false} UniformResolves(m: Lits, es: seq<Expr>, path: Path, r: ClosureCaps)
    requires Tracks(m) && es != [] && !r.DependsOnParam?
    requires forall i | 0 <= i < |es| :: Resolve(m, es[i], path) == r
    ensures ResolveAll(m, es, path) == r
    decreases |es|
  {
    if |es| > 1 {
      UniformResolves(m, es[..|es| - 1], path, r);
    } else {
      assert es[..|es| - 1] == [];
      assert r.Known? ==> {} + r.caps == r.caps;
    }
  }

  lemma {:induction false} NothingIsDeferred(m: Lits, e: Expr, path: Path)
    requires Tracks(m)
    ensures !Resolve(m, e, path).DependsOnParam?
    decreases |path|, (if e.Var? then 1 else 0)
  {
    if path != [] {
      match e
      case StructLit(fs) =>
        if path[0].Field? && FindEntry(fs, path[0].name) < |fs| {
          NothingIsDeferred(m, fs[FindEntry(fs, path[0].name)].value, path[1..]);
        }
      case Var(x) =>
        if x in m {
          NothingIsDeferred(m, m[x], path);
        }
      case _ =>
    }
  }

  lemma TakenHere(m: Lits, lit: Expr, f: string, e: Expr, q: Path)
    requires Tracks(m) && lit.StructLit?
    ensures Rebuild(lit, [], Field(f), "", e).Some?
    ensures Resolve(m, Rebuild(lit, [], Field(f), "", e).value, [Field(f)] + q) == Resolve(m, e, q)
  {
    assert ([Field(f)] + q)[1..] == q;
    var fs := Rebuild(lit, [], Field(f), "", e).value.fields;
    var i := FindEntry(lit.fields, f);
    assert fs[i] == Entry(f, e) && FindEntry(fs, f) == i;
  }

  /** Written into every element, the place resolves to what was written. */
  lemma {:induction false} TakenResolves(m: Lits, lit: Expr, p: Path, f: string, e: Expr, q: Path)
    requires Tracks(m) && Takes(lit, p)
    ensures Rebuild(lit, p, Field(f), "", e).Some?
    ensures Resolve(m, Rebuild(lit, p, Field(f), "", e).value, p + [Field(f)] + q) == Resolve(m, e, q)
    decreases |p|, 0
  {
    var whole := p + [Field(f)] + q;
    if p == [] {
      TakenHere(m, lit, f, e, q);
      assert whole == [Field(f)] + q;
    } else {
      assert whole[0] == p[0] && whole[1..] == p[1..] + [Field(f)] + q;
      NothingIsDeferred(m, e, q);
      match lit
      case StructLit(fs) =>
        var i := FindEntry(fs, p[0].name);
        TakenResolves(m, fs[i].value, p[1..], f, e, q);
        SameFindEntry(fs, Rebuild(lit, p, Field(f), "", e).value.fields, p[0].name);
      case ArrayLit(es) => TakenByEach(m, es, p[1..], f, e, q);
      case MapLit(fs) =>
        TakenByEach(m, Values(fs), p[1..], f, e, q);
        var lit' := Rebuild(lit, p, Field(f), "", e).value;
        assert Values(lit'.entries) == RebuildEach(Values(fs), p[1..], Field(f), "", e);
    }
  }

  lemma {:induction false} TakenByEach(m: Lits, es: seq<Expr>, p: Path, f: string, e: Expr, q: Path)
    requires Tracks(m) && es != [] && forall i | 0 <= i < |es| :: Takes(es[i], p)
    ensures AnyRebuilds(es, p, Field(f), "", e)
    ensures ResolveAll(m, RebuildEach(es, p, Field(f), "", e), p + [Field(f)] + q) == Resolve(m, e, q)
    decreases |p|, 1
  {
    var es' := RebuildEach(es, p, Field(f), "", e);
    forall i | 0 <= i < |es|
      ensures Rebuild(es[i], p, Field(f), "", e).Some? && Resolve(m, es'[i], p + [Field(f)] + q) == Resolve(m, e, q)
    {
      TakenResolves(m, es[i], p, f, e, q);
    }
    assert Rebuild(es[0], p, Field(f), "", e).Some?;
    NothingIsDeferred(m, e, q);
    UniformResolves(m, es', p + [Field(f)] + q, Resolve(m, e, q));
  }

  /** A field write below index steps, `x[i].f = e` at any depth and with any other fields,
      rewrites `f` in every tracked element. The snapshot survives exactly when `e` holds at
      least the authority of every closure beside the written place. */
  lemma FieldBelowIndexExactly(m: Lits, s: Store, st: Stmt)
    requires Snapshot(m, s) && st.Write? && st.leaf.AtField? && st.x in m && Exec(s, st).Some?
    requires Scoped(st.e, s) && FieldsOnce(st.e) && Overwritable(m, st.x, st.e) && Takes(m[st.x], ErasePath(st.path))
    ensures Snapshot(Track(m, st), Exec(s, st).value)
       <==> forall q: Path, c | Beside(s[st.x], st.path, st.leaf.name, q, c) :: Allows(Resolve(m, st.e, q), c)
  {
    hide Resolve, Rebuild, Takes, Beside, Allows, Covers, Reach, BesideIsAllowed, Overwritable, WriteVal, Scoped,
         FieldsOnce;
    TakenResolves(m, m[st.x], ErasePath(st.path), st.leaf.name, st.e, []);
    FieldWriteExactly(m, s, st);
    TakenAllows(m, s, st);
  }

  lemma TakenAllows(m: Lits, s: Store, st: Stmt)
    requires Tracks(m) && st.Write? && st.leaf.AtField? && st.x in m && st.x in s && Takes(m[st.x], ErasePath(st.path))
    ensures BesideIsAllowed(m, s, st)
       <==> forall q: Path, c | Beside(s[st.x], st.path, st.leaf.name, q, c) :: Allows(Resolve(m, st.e, q), c)
  {
    hide Resolve, Rebuild, Takes;
    var p, f := ErasePath(st.path), st.leaf.name;
    TakenResolves(m, m[st.x], p, f, st.e, []);
    var lit := Rebuild(m[st.x], p, Field(f), "", st.e).value;
    forall q: Path, c
      ensures Allows(Resolve(m, lit, p + [Field(f)] + q), c) == Allows(Resolve(m, st.e, q), c)
    {
      TakenResolves(m, m[st.x], p, f, st.e, q);
    }
    if BesideIsAllowed(m, s, st) {
      forall q: Path, c | Beside(s[st.x], st.path, f, q, c)
        ensures Allows(Resolve(m, st.e, q), c)
      {
        assert Allows(Resolve(m, lit, p + [Field(f)] + q), c);
      }
    } else {
      var q: Path, c :| Beside(s[st.x], st.path, f, q, c) && !Allows(Resolve(m, lit, p + [Field(f)] + q), c);
      assert !Allows(Resolve(m, st.e, q), c);
      assert !(forall q: Path, c | Beside(s[st.x], st.path, st.leaf.name, q, c) :: Allows(Resolve(m, st.e, q), c));
    }
  }

  /** With no index step on the way nothing lies beside the written place. */
  lemma {:induction false} NothingBesideFields(v: Val, path: seq<RunStep>, f: string, q: Path, c: CapSet)
    requires forall i | 0 <= i < |path| :: path[i].AtField?
    ensures !Beside(v, path, f, q, c)
    decreases |path|
  {
    if path != [] && path[0].AtField? && v.StructVal? && path[0].name in v.fields {
      NothingBesideFields(v.fields[path[0].name], path[1..], f, q, c);
    }
  }

  /** A body that opens by binding a literal that names nothing. */
  lemma FirstLet(x: string, e: Expr, next: Stmt) returns (m: Lits, s: Store)
    requires IsLiteral(e) && FieldsOnce(e) && forall y :: !Mentions(e, y)
    ensures m == map[x := e] && s == map[x := Eval(map[], e)] && Snapshot(m, s)
    ensures TrackAll(map[], [Let(x, e), next]) == Track(m, next)
    ensures ExecAll(map[], [Let(x, e), next]) == Exec(s, next)
  {
    var one := Let(x, e);
    m, s := map[x := e], map[x := Eval(map[], e)];
    assert [one, next][..1] == [one] && [one][..0] == [];
    assert Exec(map[], one) == Some(s) && ExecAll(map[], [one][..0]) == Some(map[]);
    assert TrackAll(map[], [one]) == m;
    assert ExecAll(map[], [one]) == Some(s);
    BindKeeps(map[], map[], x, e);
  }

  // ----- arrays of closures -----

  function Closures(cs: seq<CapSet>): Expr {
    ArrayLit(seq(|cs|, j requires 0 <= j < |cs| => Closure(cs[j])))
  }

  function ClosureVals(cs: seq<CapSet>): Val {
    ArrayVal(seq(|cs|, j requires 0 <= j < |cs| => CloVal(cs[j])))
  }

  function Union(cs: seq<CapSet>): CapSet {
    if cs == [] then {} else Union(cs[..|cs| - 1]) + cs[|cs| - 1]
  }

  lemma {:induction false} ClosuresResolve(m: Lits, cs: seq<CapSet>)
    requires Tracks(m)
    ensures ResolveAll(m, Closures(cs).elements, []) == Known(Union(cs))
    decreases |cs|
  {
    if cs != [] {
      ClosuresResolve(m, cs[..|cs| - 1]);
      assert Closures(cs).elements[..|cs| - 1] == Closures(cs[..|cs| - 1]).elements;
    }
  }

  lemma ClosuresReach(cs: seq<CapSet>, path: Path, x: CapSet)
    ensures Reach(ClosureVals(cs), path, x) <==> path == [Index] && x in cs
  {
    var v := ClosureVals(cs);
    if Reach(v, path, x) {
      var j :| 0 <= j < |cs| && Reach(v.elements[j], path[1..], x);
      assert path[1..] == [] && path == [path[0]] + path[1..];
    }
    if path == [Index] && x in cs {
      var j :| 0 <= j < |cs| && cs[j] == x;
      assert path[1..] == [];
      assert Reach(v.elements[j], path[1..], x);
    }
  }

  lemma EvalClosures(s: Store, cs: seq<CapSet>)
    ensures Eval(s, Closures(cs)) == ClosureVals(cs)
  {
    var es := Closures(cs).elements;
    assert forall j | 0 <= j < |cs| :: Eval(s, es[j]) == CloVal(cs[j]);
    assert Eval(s, Closures(cs)).elements == ClosureVals(cs).elements;
  }

  /** What an array literal of closures covers. */
  lemma ClosuresCover(m: Lits, cs: seq<CapSet>, ds: seq<CapSet>)
    requires Tracks(m)
    ensures Covers(m, Closures(cs), ClosureVals(ds)) <==> forall d | d in ds :: d <= Union(cs)
  {
    ClosuresResolve(m, cs);
    assert [Index][1..] == [];
    assert Resolve(m, Closures(cs), [Index]) == Known(Union(cs));
    forall path: Path, x
      ensures Reach(ClosureVals(ds), path, x) <==> path == [Index] && x in ds
    {
      ClosuresReach(ds, path, x);
    }
    if Covers(m, Closures(cs), ClosureVals(ds)) {
      forall d | d in ds
        ensures d <= Union(cs)
      {
        assert Reach(ClosureVals(ds), [Index], d);
      }
    }
  }

  // ----- a field of one element -----

  /** An array of structs that hold one closure each in field `f`. */
  function Structs(f: string, cs: seq<CapSet>): Expr {
    ArrayLit(seq(|cs|, j requires 0 <= j < |cs| => StructLit([Entry(f, Closure(cs[j]))])))
  }

  function StructVals(f: string, cs: seq<CapSet>): Val {
    ArrayVal(seq(|cs|, j requires 0 <= j < |cs| => StructVal(map[f := CloVal(cs[j])])))
  }

  lemma EvalStructs(s: Store, f: string, cs: seq<CapSet>)
    ensures Eval(s, Structs(f, cs)) == StructVals(f, cs)
  {
    var es := Structs(f, cs).elements;
    forall j | 0 <= j < |cs|
      ensures Eval(s, es[j]) == StructVal(map[f := CloVal(cs[j])])
    {
      var fs := [Entry(f, Closure(cs[j]))];
      assert fs[..0] == [] && EvalEntries(s, fs) == map[][f := CloVal(cs[j])];
    }
    assert Eval(s, Structs(f, cs)).elements == StructVals(f, cs).elements;
  }

  lemma StructsAreTidy(f: string, cs: seq<CapSet>)
    ensures FieldsOnce(Structs(f, cs)) && forall x :: !Mentions(Structs(f, cs), x)
  {
    var es := Structs(f, cs).elements;
    forall j | 0 <= j < |es|
      ensures FieldsOnce(es[j]) && forall x :: !Mentions(es[j], x)
    {
      assert es[j].fields[0].value == Closure(cs[j]);
    }
  }

  /** Beside the field of element `i` lie the closures of the other elements. */
  lemma BesideElement(f: string, cs: seq<CapSet>, i: nat, q: Path, c: CapSet)
    requires i < |cs|
    ensures Beside(StructVals(f, cs), [AtIndex(i)], f, q, c)
       <==> q == [] && exists j | 0 <= j < |cs| && j != i :: cs[j] == c
  {
    var v, rest := StructVals(f, cs), ErasePath([]) + [Field(f)] + q;
    assert [AtIndex(i)][1..] == [] && rest == [Field(f)] + q && rest[1..] == q;
    assert forall j | 0 <= j < |cs| :: Reach(v.elements[j], rest, c) <==> q == [] && cs[j] == c;
  }

  lemma ElementTakes(f: string, cs: seq<CapSet>, i: nat, d: CapSet)
    requires i < |cs|
    ensures Takes(Structs(f, cs), ErasePath([AtIndex(i)]))
    ensures WriteVal(StructVals(f, cs), [AtIndex(i)], AtField(f), CloVal(d)).Some?
  {
    var es := Structs(f, cs).elements;
    assert ErasePath([AtIndex(i)])[1..] == [] && [AtIndex(i)][1..] == [];
    assert forall j | 0 <= j < |es| :: Takes(es[j], []);
    var v, path := StructVals(f, cs), [AtIndex(i)];
    assert path[0] == AtIndex(i) && Component(v, path[0]) == Some(v.elements[i]);
    assert WriteVal(v.elements[i], path[1..], AtField(f), CloVal(d)).Some?;
  }

  /** So after `let a = [S{f: c0}, S{f: c1}, ..]; a[i].f = d;` the snapshot is right exactly when
      the closure of every other element lies within `d`. */
  lemma FieldOfElementExactly(f: string, cs: seq<CapSet>, i: nat, d: CapSet)
    requires i < |cs|
    ensures var body := [Let("a", Structs(f, cs)), Write("a", [AtIndex(i)], AtField(f), Closure(d))];
            var m, s := TrackAll(map[], body), ExecAll(map[], body);
            && s.Some? && Tracks(m)
            && (Snapshot(m, s.value) <==> forall j | 0 <= j < |cs| && j != i :: cs[j] <= d)
  {
    var two := Write("a", [AtIndex(i)], AtField(f), Closure(d));
    StructsAreTidy(f, cs);
    var m, s := FirstLet("a", Structs(f, cs), two);
    EvalStructs(map[], f, cs);
    ElementTakes(f, cs, i, d);
    TrackAllTracks([Let("a", Structs(f, cs)), two]);
    FieldBelowIndexExactly(m, s, two);
    forall q: Path, c
      ensures Beside(s["a"], [AtIndex(i)], f, q, c) <==> q == [] && exists j | 0 <= j < |cs| && j != i :: cs[j] == c
    {
      BesideElement(f, cs, i, q, c);
    }
    assert Resolve(m, Closure(d), []) == Known(d);
    if j :| 0 <= j < |cs| && j != i && !(cs[j] <= d) {
      assert Beside(s["a"], [AtIndex(i)], f, [], cs[j]) && !Allows(Resolve(m, Closure(d), []), cs[j]);
    }
  }

  /** A tracked name declared again with an initializer the tracker does not know keeps its
      literal: every snapshot stays right exactly when that literal covers the new value. */
  lemma RedeclaredNameExactly(m: Lits, s: Store, x: string, e: Expr)
    requires Snapshot(m, s) && x in m && !Bound(m, e)
    ensures Track(m, Let(x, e)) == m
    ensures Snapshot(m, s[x := Eval(s, e)]) <==> Covers(m, m[x], Eval(s, e))
  {
    var s' := s[x := Eval(s, e)];
    if Covers(m, m[x], Eval(s, e)) {
      forall y | y in m
        ensures y in s' && Scoped(m[y], s') && Covers(m, m[y], s'[y])
      {
        assert Scoped(m[y], s);
      }
    }
  }

  /** So `let a = [cs ..]; let a = f();` with `f` returning `[ds ..]` is right exactly when every
      capability set in `ds` lies within the union of `cs`. */
  lemma RedeclaredArrayExactly(cs: seq<CapSet>, ds: seq<CapSet>)
    ensures var body := [Let("a", Closures(cs)), Let("a", Unresolved(ClosureVals(ds)))];
            var m, s := TrackAll(map[], body), ExecAll(map[], body);
            && s.Some? && Tracks(m) && "a" in m && "a" in s.value
            && (Snapshot(m, s.value) <==> forall d | d in ds :: d <= Union(cs))
  {
    var two := Let("a", Unresolved(ClosureVals(ds)));
    ClosuresAreTidy(cs);
    var m, s := FirstLet("a", Closures(cs), two);
    RedeclaredNameExactly(m, s, "a", Unresolved(ClosureVals(ds)));
    ClosuresCover(m, cs, ds);
  }

  lemma ClosuresAreTidy(cs: seq<CapSet>)
    ensures FieldsOnce(Closures(cs)) && forall x :: !Mentions(Closures(cs), x)
  {
  }

  lemma {:induction false} UnionHasAll(cs: seq<CapSet>)
    ensures forall c | c in cs :: c <= Union(cs)
    decreases |cs|
  {
    if cs != [] {
      UnionHasAll(cs[..|cs| - 1]);
      assert cs == cs[..|cs| - 1] + [cs[|cs| - 1]];
    }
  }

  lemma NamedReaches(f: string, cs: seq<CapSet>, path: Path, x: CapSet)
    ensures Reach(StructVal(map[f := ClosureVals(cs)]), path, x) <==> path == [Field(f), Index] && x in cs
  {
    var v := StructVal(map[f := ClosureVals(cs)]);
    if path != [] {
      ClosuresReach(cs, path[1..], x);
      assert path == [path[0]] + path[1..];
    }
    assert [Field(f), Index][1..] == [Index];
  }

  /** A container named inside a literal is looked up when the path is resolved. So after
      `let a = [cs ..]; let s = S{f: a}; a = [ds ..];` the snapshot of `s`, which still holds the
      first array, is right exactly when every set in `cs` lies within the union of `ds`. */
  lemma NamedContainerExactly(f: string, cs: seq<CapSet>, ds: seq<CapSet>)
    ensures var body := [Let("a", Closures(cs)), Let("s", StructLit([Entry(f, Var("a"))])), Assign("a", Closures(ds))];
            var m, s := TrackAll(map[], body), ExecAll(map[], body);
            && s.Some? && Tracks(m) && "s" in m && "s" in s.value
            && (Covers(m, m["s"], s.value["s"]) <==> forall c | c in cs :: c <= Union(ds))
  {
    var m, s := NamedBody(f, cs, ds);
    var lit, place := StructLit([Entry(f, Var("a"))]), [Field(f), Index];
    assert place[1..] == [Index] && [Index][1..] == [];
    assert FindEntry(lit.fields, f) == 0;
    ClosuresResolve(m, ds);
    assert Resolve(m, Var("a"), [Index]) == Known(Union(ds));
    assert Resolve(m, lit, place) == Known(Union(ds));
    forall path: Path, x
      ensures Reach(s["s"], path, x) <==> path == place && x in cs
    {
      NamedReaches(f, cs, path, x);
    }
    if Covers(m, lit, s["s"]) {
      forall c | c in cs
        ensures c <= Union(ds)
      {
        assert Reach(s["s"], place, c);
      }
    }
  }

  lemma NamedBody(f: string, cs: seq<CapSet>, ds: seq<CapSet>) returns (m: Lits, s: Store)
    ensures var body := [Let("a", Closures(cs)), Let("s", StructLit([Entry(f, Var("a"))])), Assign("a", Closures(ds))];
            TrackAll(map[], body) == m && ExecAll(map[], body) == Some(s)
    ensures m == map["a" := Closures(ds), "s" := StructLit([Entry(f, Var("a"))])]
    ensures s == map["a" := ClosureVals(ds), "s" := StructVal(map[f := ClosureVals(cs)])]
  {
    var lit := StructLit([Entry(f, Var("a"))]);
    var one, two, three := Let("a", Closures(cs)), Let("s", lit), Assign("a", Closures(ds));
    var body := [one, two, three];
    assert body[..2] == [one, two] && [one, two][..1] == [one] && [one][..0] == [];
    var m1: Lits, s1: Store := map["a" := Closures(cs)], map["a" := ClosureVals(cs)];
    EvalClosures(map[], cs);
    assert TrackAll(map[], [one]) == m1;
    assert Exec(map[], one) == Some(s1) && ExecAll(map[], [one][..0]) == Some(map[]);
    assert ExecAll(map[], [one]) == Some(s1);
    assert lit.fields[..0] == [] && EvalEntries(s1, lit.fields) == map[][f := Eval(s1, Var("a"))];
    assert Eval(s1, lit) == StructVal(map[f := ClosureVals(cs)]);
    var m2, s2 := m1["s" := lit], s1["s" := Eval(s1, lit)];
    assert TrackAll(map[], [one, two]) == m2 && ExecAll(map[], [one, two]) == Some(s2);
    EvalClosures(s2, ds);
    m, s := m2["a" := Closures(ds)], s2["a" := ClosureVals(ds)];
    assert body[..|body| - 1] == [one, two] && body[|body| - 1] == three;
    assert TrackAll(map[], body) == m && ExecAll(map[], body) == Some(s);
  }

  // ----- a container that one literal names -----

  /** Along `p`, through fields, `e` leads to the name `x`, and nothing else in it names `x` or `y`. */
  predicate NamesAt(e: Expr, p: Path, x: string, y: string)
    decreases |p|
  {
    if p == [] then e == Var(x)
    else
      && e.StructLit? && p[0].Field?
      && var i := FindEntry(e.fields, p[0].name);
         && i < |e.fields| && NamesAt(e.fields[i].value, p[1..], x, y)
         && forall k | 0 <= k < |e.fields| && k != i :: Apart(e.fields[k].value, x, y)
  }

  predicate Apart(e: Expr, x: string, y: string) {
    !Mentions(e, x) && !Mentions(e, y)
  }

  /** Of all literals, that of `y` alone names `x`, at `p`, and none names `y`. */
  predicate OnlyNamedAt(m: Lits, x: string, y: string, p: Path) {
    && x in m && y in m && x != y && NamesAt(m[y], p, x, y)
    && forall z | z in m && z != y :: Apart(m[z], x, y)
  }

  /** What names neither resolves as before. */
  lemma ApartResolvesSame(m: Lits, x: string, y: string, p: Path, lit: Expr, e: Expr, path: Path)
    requires Tracks(m) && IsLiteral(lit) && Apart(lit, x, y) && OnlyNamedAt(m, x, y, p) && Apart(e, x, y)
    ensures Resolve(m[x := lit], e, path) == Resolve(m, e, path)
  {
    var m' := m[x := lit];
    assert m - {y} == map z | z in m && z != y :: m[z];
    UnmentionedResolvesSame(m, m - {y}, y, e, path);
    UnmentionedResolvesSame(m - {y}, m' - {y}, x, e, path);
    UnmentionedResolvesSame(m', m' - {y}, y, e, path);
  }

  /** The naming literal resolves through the name, and elsewhere as before. */
  lemma {:induction false} NamingResolves(m: Lits, x: string, y: string, whole: Path, lit: Expr, e: Expr, p: Path,
                                          path: Path)
    requires Tracks(m) && IsLiteral(lit) && Apart(lit, x, y) && OnlyNamedAt(m, x, y, whole) && NamesAt(e, p, x, y)
    ensures if p <= path then Resolve(m[x := lit], e, path) == Resolve(m[x := lit], Var(x), path[|p|..])
            else Resolve(m[x := lit], e, path) == Resolve(m, e, path)
    decreases |p|
  {
    if p == [] {
      assert path[0..] == path;
    } else if path != [] {
      var i := FindEntry(e.fields, p[0].name);
      if path[0] == p[0] {
        NamingResolves(m, x, y, whole, lit, e.fields[i].value, p[1..], path[1..]);
        assert p <= path <==> p[1..] <= path[1..] by {
          assert p == [p[0]] + p[1..] && path == [path[0]] + path[1..];
        }
        assert p <= path ==> path[1..][|p[1..]|..] == path[|p|..];
      } else if path[0].Field? {
        var k := FindEntry(e.fields, path[0].name);
        if k < |e.fields| {
          ApartResolvesSame(m, x, y, whole, lit, e.fields[k].value, path[1..]);
        }
      }
    }
  }

  /** A container that one literal names is resolved through the name. So giving it new contents
      `e` keeps the snapshots exactly when `e` allows every closure that the naming value holds at
      the place of the name. */
  lemma OverwriteNamedExactly(m: Lits, s: Store, x: string, y: string, p: Path, e: Expr)
    requires Snapshot(m, s) && OnlyNamedAt(m, x, y, p)
    requires IsLiteral(e) && Apart(e, x, y) && Scoped(e, s) && FieldsOnce(e)
    ensures Track(m, Assign(x, e)) == m[x := e] && Exec(s, Assign(x, e)) == Some(s[x := Eval(s, e)])
    ensures Snapshot(m[x := e], s[x := Eval(s, e)])
       <==> forall q: Path, c | Reach(s[y], p + q, c) :: Allows(Resolve(m, e, q), c)
  {
    var m', s' := m[x := e], s[x := Eval(s, e)];
    OthersStayCovered(m, s, x, y, p, e);
    NamingIsCoveredExactly(m, s, x, y, p, e);
    hide Covers, Resolve, Reach, Mentions, FieldsOnce, NamesAt, Allows;
    assert s'[y] == s[y] && m'[y] == m[y];
  }

  lemma OthersStayCovered(m: Lits, s: Store, x: string, y: string, p: Path, e: Expr)
    requires Snapshot(m, s) && OnlyNamedAt(m, x, y, p)
    requires IsLiteral(e) && Apart(e, x, y) && Scoped(e, s) && FieldsOnce(e)
    ensures forall z | z in m && z != y :: Covers(m[x := e], m[x := e][z], s[x := Eval(s, e)][z])
    ensures forall z | z in m :: Scoped(m[x := e][z], s[x := Eval(s, e)])
  {
    var m', s' := m[x := e], s[x := Eval(s, e)];
    EvalCovered(m, s, e);
    hide Resolve, Reach, Mentions, FieldsOnce, NamesAt, Allows;
    forall z | z in m && z != y
      ensures Covers(m', m'[z], s'[z])
    {
      forall path
        ensures Resolve(m', m'[z], path) == Resolve(m, m'[z], path)
      {
        ApartResolvesSame(m, x, y, p, e, m'[z], path);
      }
    }
  }

  lemma NamingIsCoveredExactly(m: Lits, s: Store, x: string, y: string, p: Path, e: Expr)
    requires Snapshot(m, s) && OnlyNamedAt(m, x, y, p) && IsLiteral(e) && Apart(e, x, y)
    ensures Covers(m[x := e], m[y], s[y]) <==> forall q: Path, c | Reach(s[y], p + q, c) :: Allows(Resolve(m, e, q), c)
  {
    var m' := m[x := e];
    forall q: Path, c
      ensures Allows(Resolve(m', m[y], p + q), c) == Allows(Resolve(m, e, q), c)
    {
      NamingResolves(m, x, y, p, e, m[y], p, p + q);
      assert (p + q)[|p|..] == q;
      ApartResolvesSame(m, x, y, p, e, e, q);
    }
    if Covers(m', m[y], s[y]) {
      forall q: Path, c | Reach(s[y], p + q, c)
        ensures Allows(Resolve(m, e, q), c)
      {
        assert Allows(Resolve(m', m[y], p + q), c);
      }
    } else {
      var path: Path, c :| Reach(s[y], path, c) && !Allows(Resolve(m', m[y], path), c);
      NamingResolves(m, x, y, p, e, m[y], p, path);
      assert p <= path by {
        assert Allows(Resolve(m, m[y], path), c);
      }
      var q := path[|p|..];
      assert path == p + q;
      assert Reach(s[y], p + q, c) && !Allows(Resolve(m, e, q), c);
      assert !(forall q: Path, c | Reach(s[y], p + q, c) :: Allows(Resolve(m, e, q), c));
    }
  }
}
