/** Conditional compilation (compiler/crates/kryos-ast/src/cfg_strip.rs): predicates are kept as
    text and taken apart again at every level. Evaluating the text of any tree of `not`, `all`
    and `any`, however spaced and cased, gives the Boolean meaning of the tree. */
module CfgStrip {
  import opened Wrappers
  import opened Text

  datatype CfgContext = CfgContext(targetOs: string, release: bool)

  // ----- taking a predicate apart -----

  /** The index at which the parentheses close to depth zero; `s` is what follows index `i`. */
  function CloseAt(s: string, i: nat, depth: int): (r: Option<nat>)
    ensures r.Some? ==> i <= r.value < i + |s| && s[r.value - i] == ')'
    decreases |s|
  {
    if s == "" then None
    else if s[0] == '(' then CloseAt(s[1..], i + 1, depth + 1)
    else if s[0] == ')' then (if depth - 1 == 0 then Some(i) else CloseAt(s[1..], i + 1, depth - 1))
    else CloseAt(s[1..], i + 1, depth)
  }

  /** What stands inside the parentheses, if one group is all the text. */
  function GroupInner(rest: string): (r: Option<string>)
    ensures r.Some? ==> |r.value| + 2 <= |rest|
  {
    if rest == "" || rest[0] != '(' || rest[|rest| - 1] != ')' then None
    else
      var close := CloseAt(rest, 0, 0);
      if close.Some? && close.value + 1 == |rest| && close.value >= 1 then Some(rest[1..close.value]) else None
  }

  /** What stands between the parentheses of `name( .. )`, if the text is exactly that. */
  function CallInner(text: string, name: string): (r: Option<string>)
    ensures r.Some? ==> |r.value| + 2 + |name| <= |Trim(text)|
  {
    var s := Trim(text);
    if |s| < |name| || Lower(s)[..|name|] != name then None else GroupInner(TrimStart(s[|name|..]))
  }

  method StripGroup(rest: string) returns (r: Option<string>)
    ensures r == GroupInner(rest)
  {
    if rest == "" || rest[0] != '(' || rest[|rest| - 1] != ')' {
      return None;
    }
    var depth: int := 0;
    for i := 0 to |rest|
      invariant CloseAt(rest, 0, 0) == CloseAt(rest[i..], i, depth)
      invariant i == 0 ==> depth == 0
    {
      assert rest[i..][1..] == rest[i + 1..];
      if rest[i] == '(' {
        depth := depth + 1;
      } else if rest[i] == ')' {
        depth := depth - 1;
        if depth == 0 {
          return if i + 1 != |rest| then None else Some(rest[1..i]);
        }
      }
    }
    return None;
  }

  method StripCall(text: string, name: string) returns (r: Option<string>)
    ensures r == CallInner(text, name)
  {
    var s := Trim(text);
    if |s| < |name| || Lower(s)[..|name|] != name {
      return None;
    }
    var rest := TrimStart(s[|name|..]);
    r := StripGroup(rest);
  }

  /** A finished piece, unless there is nothing in it. */
  function Push(parts: seq<string>, cur: string): seq<string> {
    if Trim(cur) == "" then parts else parts + [Trim(cur)]
  }

  function Split(s: string, depth: int, cur: string, parts: seq<string>): seq<string>
    decreases |s|
  {
    if s == "" then Push(parts, cur)
    else if s[0] == '(' then Split(s[1..], depth + 1, cur + [s[0]], parts)
    else if s[0] == ')' then Split(s[1..], depth - 1, cur + [s[0]], parts)
    else if s[0] == ',' && depth == 0 then Split(s[1..], depth, "", Push(parts, cur))
    else Split(s[1..], depth, cur + [s[0]], parts)
  }

  function Parts(s: string): seq<string> {
    Split(s, 0, "", [])
  }

  method SplitTopLevel(s: string) returns (parts: seq<string>)
    ensures parts == Parts(s)
  {
    parts := [];
    var depth: int, cur: string := 0, "";
    for i := 0 to |s|
      invariant Parts(s) == Split(s[i..], depth, cur, parts)
    {
      assert s[i..][1..] == s[i + 1..];
      if s[i] == '(' {
        depth := depth + 1;
        cur := cur + [s[i]];
      } else if s[i] == ')' {
        depth := depth - 1;
        cur := cur + [s[i]];
      } else if s[i] == ',' && depth == 0 {
        var t := Trim(cur);
        if t != "" {
          parts := parts + [t];
        }
        cur := "";
      } else {
        cur := cur + [s[i]];
      }
    }
    var t := Trim(cur);
    if t != "" {
      parts := parts + [t];
    }
  }

  predicate NoLongerThan(parts: seq<string>, n: nat) {
    forall k | 0 <= k < |parts| :: |parts[k]| <= n
  }

  lemma PushIsShort(parts: seq<string>, cur: string, n: nat)
    requires NoLongerThan(parts, n) && |cur| <= n
    ensures NoLongerThan(Push(parts, cur), n)
  {
  }

  /** No piece is longer than the text it was cut from. */
  lemma {:induction false} PiecesAreShort(s: string, depth: int, cur: string, parts: seq<string>, n: nat)
    requires |cur| + |s| <= n && NoLongerThan(parts, n)
    ensures NoLongerThan(Split(s, depth, cur, parts), n)
    decreases |s|
  {
    hide Push, NoLongerThan;
    PushIsShort(parts, cur, n);
    if s != "" {
      if s[0] == '(' {
        PiecesAreShort(s[1..], depth + 1, cur + [s[0]], parts, n);
      } else if s[0] == ')' {
        PiecesAreShort(s[1..], depth - 1, cur + [s[0]], parts, n);
      } else if s[0] == ',' && depth == 0 {
        PiecesAreShort(s[1..], depth, "", Push(parts, cur), n);
      } else {
        PiecesAreShort(s[1..], depth, cur + [s[0]], parts, n);
      }
    }
  }

  lemma PartsAreShort(s: string)
    ensures NoLongerThan(Parts(s), |s|)
  {
    PiecesAreShort(s, 0, "", [], |s|);
  }

  // ----- evaluation -----

  predicate AtomHolds(name: string, ctx: CfgContext) {
    if name == "linux" then ctx.targetOs == "linux"
    else if name == "windows" then ctx.targetOs == "windows"
    else if name == "macos" then ctx.targetOs == "macos"
    else if name == "unix" then ctx.targetOs == "linux" || ctx.targetOs == "macos"
    else if name == "debug" then !ctx.release
    else if name == "release" then ctx.release
    else false
  }

  /** Every recursive call is on a strictly shorter text. */
  predicate MatchPredicate(arg: string, ctx: CfgContext)
    decreases |arg|
  {
    var trimmed := Trim(arg);
    var isNot, isAll, isAny := CallInner(trimmed, "not"), CallInner(trimmed, "all"), CallInner(trimmed, "any");
    if isNot.Some? then
      PartsAreShort(isNot.value);
      var parts := Parts(isNot.value);
      |parts| == 1 && !MatchPredicate(parts[0], ctx)
    else if isAll.Some? then
      PartsAreShort(isAll.value);
      var parts := Parts(isAll.value);
      forall k | 0 <= k < |parts| :: MatchPredicate(parts[k], ctx)
    else if isAny.Some? then
      PartsAreShort(isAny.value);
      var parts := Parts(isAny.value);
      exists k | 0 <= k < |parts| :: MatchPredicate(parts[k], ctx)
    else AtomHolds(Lower(trimmed), ctx)
  }

  // ----- predicate trees and their text -----

  /** A tree with the layout of its text: the words in any case, white space anywhere
      between the tokens. */
  datatype Tree =
    | Atom(lead: string, name: string, trail: string)
    | Not(lead: string, word: string, gap: string, child: Tree, trail: string)
    | All(lead: string, word: string, gap: string, children: seq<Tree>, trail: string)
    | Any(lead: string, word: string, gap: string, children: seq<Tree>, trail: string)

  predicate Meaning(t: Tree, ctx: CfgContext) {
    match t
    case Atom(_, name, _) => AtomHolds(Lower(name), ctx)
    case Not(_, _, _, c, _) => !Meaning(c, ctx)
    case All(_, _, _, cs, _) => forall k | 0 <= k < |cs| :: Meaning(cs[k], ctx)
    case Any(_, _, _, cs, _) => exists k | 0 <= k < |cs| :: Meaning(cs[k], ctx)
  }

  /** A name of an atom holds none of the characters that structure a predicate. */
  predicate IsAtomName(name: string) {
    name != "" && Trimmed(name) && forall k | 0 <= k < |name| :: name[k] != '(' && name[k] != ')' && name[k] != ','
  }

  predicate WellFormed(t: Tree) {
    && Text.Blank(t.lead) && Text.Blank(t.trail)
    && match t
       case Atom(_, name, _) => IsAtomName(name)
       case Not(_, word, gap, c, _) => Lower(word) == "not" && Text.Blank(gap) && WellFormed(c)
       case All(_, word, gap, cs, _) =>
         Lower(word) == "all" && Text.Blank(gap) && forall k | 0 <= k < |cs| :: WellFormed(cs[k])
       case Any(_, word, gap, cs, _) =>
         Lower(word) == "any" && Text.Blank(gap) && forall k | 0 <= k < |cs| :: WellFormed(cs[k])
  }

  /** The text without the white space around it. */
  function Core(t: Tree): string
    decreases t, 0
  {
    match t
    case Atom(_, name, _) => name
    case Not(_, word, gap, c, _) => word + gap + "(" + Render(c) + ")"
    case All(_, word, gap, cs, _) => word + gap + "(" + RenderList(t, |cs|) + ")"
    case Any(_, word, gap, cs, _) => word + gap + "(" + RenderList(t, |cs|) + ")"
  }

  function Render(t: Tree): string
    decreases t, 1
  {
    t.lead + Core(t) + t.trail
  }

  /** The first `n` children, with commas between them. */
  function RenderList(t: Tree, n: nat): string
    requires (t.All? || t.Any?) && n <= |t.children|
    decreases t, 0, n
  {
    if n == 0 then "" else if n == 1 then Render(t.children[0])
    else RenderList(t, n - 1) + "," + Render(t.children[n - 1])
  }

  // ----- balanced text passes both scanners -----

  /** Read at depth `d` or deeper, the text leaves the depth and every piece as they were. */
  ghost predicate Passes(r: string, d: nat) {
    && (forall rest: string, depth: int, cur: string, parts | depth >= d ::
          Split(r + rest, depth, cur, parts) == Split(rest, depth, cur + r, parts))
    && (forall rest: string, i: nat, depth: int | depth >= d && depth >= 1 ::
          CloseAt(r + rest, i, depth) == CloseAt(rest, i + |r|, depth))
  }

  lemma PassSplit(r: string, rest: string, d: nat, depth: int, cur: string, parts: seq<string>)
    requires Passes(r, d) && depth >= d
    ensures Split(r + rest, depth, cur, parts) == Split(rest, depth, cur + r, parts)
  {
    hide Split, CloseAt;
  }

  lemma PassesBoth(a: string, b: string, d: nat)
    requires Passes(a, d) && Passes(b, d)
    ensures Passes(a + b, d)
  {
    forall rest: string, depth: int, cur: string, parts | depth >= d
      ensures Split(a + b + rest, depth, cur, parts) == Split(rest, depth, cur + (a + b), parts)
    {
      assert a + b + rest == a + (b + rest) && cur + (a + b) == cur + a + b;
      assert Split(b + rest, depth, cur + a, parts) == Split(rest, depth, cur + a + b, parts);
    }
    forall rest: string, i: nat, depth: int | depth >= d && depth >= 1
      ensures CloseAt(a + b + rest, i, depth) == CloseAt(rest, i + |a + b|, depth)
    {
      assert a + b + rest == a + (b + rest);
      assert CloseAt(b + rest, i + |a|, depth) == CloseAt(rest, i + |a| + |b|, depth);
    }
  }

  lemma EmptyPasses(d: nat)
    ensures Passes("", d)
  {
    forall rest: string, depth: int, cur: string, parts | depth >= d
      ensures Split("" + rest, depth, cur, parts) == Split(rest, depth, cur + "", parts)
    {
      assert "" + rest == rest && cur + "" == cur;
    }
    forall rest: string, i: nat, depth: int | depth >= d && depth >= 1
      ensures CloseAt("" + rest, i, depth) == CloseAt(rest, i + 0, depth)
    {
      assert "" + rest == rest;
    }
  }

  /** One character without a structural meaning; a comma has one at depth zero only. */
  lemma CharPasses(c: char, d: nat)
    requires c != '(' && c != ')' && (c == ',' ==> d > 0)
    ensures Passes([c], d)
  {
    forall rest: string, depth: int, cur: string, parts | depth >= d
      ensures Split([c] + rest, depth, cur, parts) == Split(rest, depth, cur + [c], parts)
    {
      assert ([c] + rest)[1..] == rest;
    }
    forall rest: string, i: nat, depth: int | depth >= d && depth >= 1
      ensures CloseAt([c] + rest, i, depth) == CloseAt(rest, i + 1, depth)
    {
      assert ([c] + rest)[1..] == rest;
    }
  }

  predicate Plain(r: string) {
    forall k | 0 <= k < |r| :: r[k] != '(' && r[k] != ')' && r[k] != ','
  }

  lemma {:induction false} PlainPasses(r: string, d: nat)
    requires Plain(r)
    ensures Passes(r, d)
    decreases |r|
  {
    if r == "" {
      EmptyPasses(d);
    } else {
      CharPasses(r[0], d);
      PlainPasses(r[1..], d);
      PassesBoth([r[0]], r[1..], d);
      assert [r[0]] + r[1..] == r;
    }
  }

  /** Parentheses around text that is balanced inside them. */
  lemma GroupSplits(r: string, rest: string, depth: int, cur: string, parts: seq<string>)
    requires Passes(r, 1) && depth >= 0
    ensures Split("(" + r + ")" + rest, depth, cur, parts) == Split(rest, depth, cur + ("(" + r + ")"), parts)
  {
    var g := "(" + r + ")";
    assert (g + rest)[1..] == r + (")" + rest);
    PassSplit(r, ")" + rest, 1, depth + 1, cur + "(", parts);
    assert (")" + rest)[1..] == rest;
    assert cur + "(" + r + ")" == cur + g;
    hide Passes;
  }

  lemma GroupCloses(r: string, rest: string, i: nat, depth: int)
    requires Passes(r, 1) && depth >= 1
    ensures CloseAt("(" + r + ")" + rest, i, depth) == CloseAt(rest, i + |"(" + r + ")"|, depth)
  {
    assert ("(" + r + ")" + rest)[1..] == r + (")" + rest);
    assert CloseAt(r + (")" + rest), i + 1, depth + 1) == CloseAt(")" + rest, i + 1 + |r|, depth + 1);
    assert (")" + rest)[1..] == rest;
  }

  lemma GroupPasses(r: string)
    requires Passes(r, 1)
    ensures Passes("(" + r + ")", 0)
  {
    hide Split, CloseAt;
    forall rest: string, depth: int, cur: string, parts | depth >= 0
      ensures Split("(" + r + ")" + rest, depth, cur, parts) == Split(rest, depth, cur + ("(" + r + ")"), parts)
    {
      GroupSplits(r, rest, depth, cur, parts);
    }
    forall rest: string, i: nat, depth: int | depth >= 1
      ensures CloseAt("(" + r + ")" + rest, i, depth) == CloseAt(rest, i + |"(" + r + ")"|, depth)
    {
      GroupCloses(r, rest, i, depth);
    }
  }

  lemma BlankIsPlain(r: string)
    requires Text.Blank(r)
    ensures Plain(r)
  {
  }

  predicate Combinator(name: string) {
    name == "not" || name == "all" || name == "any"
  }

  lemma WordIsPlain(word: string, name: string)
    requires Lower(word) == name && Combinator(name)
    ensures Plain(word) && |word| == 3 && !IsWhitespace(word[0])
  {
    assert Lower(word)[0] == name[0] && Lower(word)[1] == name[1] && Lower(word)[2] == name[2];
  }

  /** The rendering of a call: its word and gap, then the group. */
  lemma CallPasses(word: string, gap: string, inner: string, d: nat)
    requires Plain(word) && Plain(gap) && Passes(inner, 1)
    ensures Passes(word + gap + "(" + inner + ")", d)
  {
    PlainPasses(word, 0);
    PlainPasses(gap, 0);
    PassesBoth(word, gap, 0);
    GroupPasses(inner);
    PassesBoth(word + gap, "(" + inner + ")", 0);
    assert word + gap + ("(" + inner + ")") == word + gap + "(" + inner + ")";
    Deeper(word + gap + "(" + inner + ")", d);
  }

  lemma Deeper(r: string, d: nat)
    requires Passes(r, 0)
    ensures Passes(r, d)
  {
  }

  lemma {:induction false} TreePasses(t: Tree)
    requires WellFormed(t)
    ensures Passes(Render(t), 0)
    decreases t, 1
  {
    BlankIsPlain(t.lead);
    BlankIsPlain(t.trail);
    match t {
      case Atom(_, name, _) => PlainPasses(name, 0);
      case Not(_, word, gap, c, _) =>
        WordIsPlain(word, "not");
        BlankIsPlain(gap);
        TreePasses(c);
        Deeper(Render(c), 1);
        CallPasses(word, gap, Render(c), 0);
      case All(_, word, gap, cs, _) =>
        WordIsPlain(word, "all");
        BlankIsPlain(gap);
        ListPasses(t, |cs|);
        CallPasses(word, gap, RenderList(t, |cs|), 0);
      case Any(_, word, gap, cs, _) =>
        WordIsPlain(word, "any");
        BlankIsPlain(gap);
        ListPasses(t, |cs|);
        CallPasses(word, gap, RenderList(t, |cs|), 0);
    }
    PlainPasses(t.lead, 0);
    PlainPasses(t.trail, 0);
    PassesBoth(t.lead, Core(t), 0);
    PassesBoth(t.lead + Core(t), t.trail, 0);
  }

  lemma {:induction false} ListPasses(t: Tree, n: nat)
    requires WellFormed(t) && (t.All? || t.Any?) && n <= |t.children|
    ensures Passes(RenderList(t, n), 1)
    decreases t, 0, n
  {
    if n == 0 {
      EmptyPasses(1);
    } else {
      TreePasses(t.children[n - 1]);
      Deeper(Render(t.children[n - 1]), 1);
      if n > 1 {
        ListPasses(t, n - 1);
        CharPasses(',', 1);
        PassesBoth(RenderList(t, n - 1), ",", 1);
        PassesBoth(RenderList(t, n - 1) + ",", Render(t.children[n - 1]), 1);
      }
    }
  }

  // ----- taking a rendered tree apart -----

  lemma CoreIsTrimmed(t: Tree)
    requires WellFormed(t)
    ensures Core(t) != "" && Trimmed(Core(t)) && Trim(Render(t)) == Core(t)
  {
    match t {
      case Atom(_, _, _) =>
      case Not(_, word, _, _, _) => WordIsPlain(word, "not");
      case All(_, word, _, _, _) => WordIsPlain(word, "all");
      case Any(_, word, _, _, _) => WordIsPlain(word, "any");
    }
    TrimPadded(t.lead, Core(t), t.trail);
  }

  /** A group of balanced text gives back what is inside it. */
  lemma GroupIsTaken(inner: string)
    requires Passes(inner, 1)
    ensures GroupInner("(" + inner + ")") == Some(inner)
  {
    var rest := "(" + inner + ")";
    assert rest[1..] == inner + ")";
    assert CloseAt(rest, 0, 0) == CloseAt(inner + ")", 1, 1);
    assert CloseAt(inner + ")", 1, 1) == CloseAt(")", 1 + |inner|, 1);
    assert rest[1..1 + |inner|] == inner;
  }

  lemma LowerPrefix(word: string, tail: string)
    ensures |word + tail| >= |word| && Lower(word + tail)[..|word|] == Lower(word)
  {
  }

  /** A rendered call is taken apart under its own word and no other. */
  lemma CallIsTaken(word: string, gap: string, inner: string, own: string, name: string)
    requires Lower(word) == own && Combinator(own) && Combinator(name)
    requires Text.Blank(gap) && Passes(inner, 1)
    ensures CallInner(word + gap + "(" + inner + ")", name) == if name == own then Some(inner) else None
  {
    hide *;
    var group := "(" + inner + ")";
    WordIsPlain(word, own);
    GroupIsTaken(inner);
    NamesAreThree(name);
    WordThenGroup(word, gap, group, name);
    assert word + (gap + group) == word + gap + "(" + inner + ")";
  }

  lemma NamesAreThree(name: string)
    requires Combinator(name)
    ensures |name| == 3
  {
  }

  lemma WordThenGroup(word: string, gap: string, group: string, name: string)
    requires |word| == 3 && |name| == 3 && !IsWhitespace(word[0]) && Text.Blank(gap)
    requires |group| >= 2 && group[0] == '(' && group[|group| - 1] == ')'
    ensures CallInner(word + (gap + group), name) == if Lower(word) == name then GroupInner(group) else None
  {
    hide *;
    var s := word + (gap + group);
    CallIsTrimmed(word, gap, group);
    CallTail(word, gap, group);
    LowerPrefix(word, gap + group);
    CallIsPrefixed(s, name);
  }

  lemma CallIsTrimmed(word: string, gap: string, group: string)
    requires word != "" && !IsWhitespace(word[0]) && group != "" && group[|group| - 1] == ')'
    ensures Trim(word + (gap + group)) == word + (gap + group)
  {
    TrimTrimmed(word + (gap + group));
  }

  lemma CallIsPrefixed(s: string, name: string)
    requires |s| >= 3 && |name| == 3 && Trim(s) == s
    ensures CallInner(s, name) == if Lower(s)[..3] == name then GroupInner(TrimStart(s[3..])) else None
  {
    hide Trim, Lower, GroupInner, TrimStart;
  }

  lemma CallTail(word: string, gap: string, group: string)
    requires |word| == 3 && Text.Blank(gap) && group != "" && group[0] == '('
    ensures TrimStart((word + (gap + group))[3..]) == group
  {
    assert (word + (gap + group))[3..] == gap + group;
    TrimStartDropsLead(gap, group);
  }

  /** An atom is no call. */
  lemma AtomIsNoCall(name: string, word: string)
    requires IsAtomName(name)
    ensures CallInner(name, word) == None
  {
    TrimTrimmed(name);
    if |word| <= |name| {
      var tail := name[|word|..];
      var rest := TrimStart(tail);
      TrimStartIsSuffix(tail);
      if rest != "" {
        assert rest[0] == tail[|tail| - |rest|];
      }
    }
  }

  function Cores(t: Tree, n: nat): seq<string>
    requires (t.All? || t.Any?) && n <= |t.children|
  {
    seq(n, k requires 0 <= k < n => Core(t.children[k]))
  }

  lemma CoresGrow(t: Tree, n: nat)
    requires (t.All? || t.Any?) && 1 <= n <= |t.children|
    ensures Cores(t, n) == Cores(t, n - 1) + [Core(t.children[n - 1])]
  {
    hide Core;
  }

  lemma PieceIsPushed(c: Tree, parts: seq<string>)
    requires WellFormed(c)
    ensures Push(parts, Render(c)) == parts + [Core(c)]
  {
    hide WellFormed, Render, Trim, Core;
    CoreIsTrimmed(c);
  }

  lemma CommaSplits(s: string, cur: string, parts: seq<string>)
    ensures Split("," + s, 0, cur, parts) == Split(s, 0, "", Push(parts, cur))
  {
    hide Push;
    assert ("," + s)[1..] == s && ("," + s)[0] == ',';
  }

  lemma ListOfOne(t: Tree)
    requires (t.All? || t.Any?) && 1 <= |t.children|
    ensures RenderList(t, 1) == Render(t.children[0]) && Cores(t, 0) == []
  {
    hide Render, Core;
  }

  lemma ListGrows(t: Tree, n: nat, rest: string)
    requires (t.All? || t.Any?) && 2 <= n <= |t.children|
    ensures RenderList(t, n) + rest == RenderList(t, n - 1) + ("," + (Render(t.children[n - 1]) + rest))
  {
    hide Render;
  }

  lemma ChildrenAreWellFormed(t: Tree)
    requires WellFormed(t) && (t.All? || t.Any?)
    ensures forall k | 0 <= k < |t.children| :: WellFormed(t.children[k])
  {
  }

  lemma {:induction false} ListSplits(t: Tree, n: nat, rest: string)
    requires WellFormed(t) && (t.All? || t.Any?) && 1 <= n <= |t.children|
    ensures Split(RenderList(t, n) + rest, 0, "", []) == Split(rest, 0, Render(t.children[n - 1]), Cores(t, n - 1))
    decreases n
  {
    hide *;
    if n == 1 {
      FirstSplits(t, rest);
    } else {
      ListSplits(t, n - 1, "," + (Render(t.children[n - 1]) + rest));
      MoreSplits(t, n, rest);
    }
  }

  lemma FirstSplits(t: Tree, rest: string)
    requires WellFormed(t) && (t.All? || t.Any?) && 1 <= |t.children|
    ensures Split(RenderList(t, 1) + rest, 0, "", []) == Split(rest, 0, Render(t.children[0]), Cores(t, 0))
  {
    hide *;
    var c := t.children[0];
    ListOfOne(t);
    ChildrenAreWellFormed(t);
    TreePasses(c);
    PassSplit(Render(c), rest, 0, 0, "", []);
    assert "" + Render(c) == Render(c);
  }

  /** The comma after a child ends its piece, and the next child is read. */
  lemma MoreSplits(t: Tree, n: nat, rest: string)
    requires WellFormed(t) && (t.All? || t.Any?) && 2 <= n <= |t.children|
    requires var more := "," + (Render(t.children[n - 1]) + rest);
             Split(RenderList(t, n - 1) + more, 0, "", []) == Split(more, 0, Render(t.children[n - 2]), Cores(t, n - 2))
    ensures Split(RenderList(t, n) + rest, 0, "", []) == Split(rest, 0, Render(t.children[n - 1]), Cores(t, n - 1))
  {
    hide *;
    var c, before := t.children[n - 1], t.children[n - 2];
    ChildrenAreWellFormed(t);
    TreePasses(c);
    ListGrows(t, n, rest);
    CommaSplits(Render(c) + rest, Render(before), Cores(t, n - 2));
    PieceIsPushed(before, Cores(t, n - 2));
    CoresGrow(t, n - 1);
    PassSplit(Render(c), rest, 0, 0, "", Cores(t, n - 1));
    assert "" + Render(c) == Render(c);
  }

  lemma ListParts(t: Tree)
    requires WellFormed(t) && (t.All? || t.Any?)
    ensures Parts(RenderList(t, |t.children|)) == Cores(t, |t.children|)
  {
    var n := |t.children|;
    if n > 0 {
      assert WellFormed(t.children[n - 1]);
      ListSplits(t, n, "");
      PieceIsPushed(t.children[n - 1], Cores(t, n - 1));
      CoresGrow(t, n);
      hide RenderList, Render, Core, Cores, Push, WellFormed;
      assert RenderList(t, n) + "" == RenderList(t, n);
      assert Split("", 0, Render(t.children[n - 1]), Cores(t, n - 1))
             == Push(Cores(t, n - 1), Render(t.children[n - 1]));
    }
  }

  lemma OneParts(c: Tree)
    requires WellFormed(c)
    ensures Parts(Render(c)) == [Core(c)]
  {
    TreePasses(c);
    PassSplit(Render(c), "", 0, 0, "", []);
    PieceIsPushed(c, []);
    hide Render, Core, WellFormed, Passes, Push;
    assert Render(c) + "" == Render(c) && "" + Render(c) == Render(c);
    assert Split("", 0, Render(c), []) == Push([], Render(c));
  }

  // ----- evaluation is the Boolean meaning -----

  function WordOf(t: Tree): string
    requires !t.Atom?
  {
    if t.Not? then "not" else if t.All? then "all" else "any"
  }

  function InnerOf(t: Tree): string
    requires !t.Atom?
  {
    if t.Not? then Render(t.child) else RenderList(t, |t.children|)
  }

  lemma InnerPasses(t: Tree)
    requires WellFormed(t) && !t.Atom?
    ensures Passes(InnerOf(t), 1)
  {
    if t.Not? {
      TreePasses(t.child);
      Deeper(Render(t.child), 1);
    } else {
      ListPasses(t, |t.children|);
    }
  }

  lemma CoreIsTaken(t: Tree, name: string)
    requires WellFormed(t) && !t.Atom? && Combinator(name)
    ensures CallInner(Core(t), name) == if name == WordOf(t) then Some(InnerOf(t)) else None
  {
    hide Passes, CallInner, Render, RenderList;
    InnerPasses(t);
    CallIsTaken(t.word, t.gap, InnerOf(t), WordOf(t), name);
    assert Core(t) == t.word + t.gap + "(" + InnerOf(t) + ")";
  }

  lemma NotIsEvaluated(t: Tree, arg: string, ctx: CfgContext)
    requires WellFormed(t) && t.Not? && Trim(arg) == Core(t)
    ensures MatchPredicate(arg, ctx) == !MatchPredicate(Core(t.child), ctx)
  {
    CoreIsTaken(t, "not");
    OneParts(t.child);
    hide Render, Core, WellFormed, Parts, CallInner, AtomHolds, Trim;
  }

  lemma AllIsEvaluated(t: Tree, arg: string, ctx: CfgContext)
    requires WellFormed(t) && t.All? && Trim(arg) == Core(t)
    ensures MatchPredicate(arg, ctx) <==> forall k | 0 <= k < |t.children| :: MatchPredicate(Core(t.children[k]), ctx)
  {
    hide Render, RenderList, Core, WellFormed, Parts, CallInner, AtomHolds, Trim;
    CoreIsTaken(t, "not");
    CoreIsTaken(t, "all");
    ListParts(t);
    PartsAreShort(InnerOf(t));
    var parts := Cores(t, |t.children|);
    assert forall k | 0 <= k < |t.children| :: parts[k] == Core(t.children[k]);
  }

  lemma AnyIsEvaluated(t: Tree, arg: string, ctx: CfgContext)
    requires WellFormed(t) && t.Any? && Trim(arg) == Core(t)
    ensures MatchPredicate(arg, ctx) <==> exists k | 0 <= k < |t.children| :: MatchPredicate(Core(t.children[k]), ctx)
  {
    hide Render, RenderList, Core, WellFormed, Parts, CallInner, AtomHolds, Trim;
    CoreIsTaken(t, "not");
    CoreIsTaken(t, "all");
    CoreIsTaken(t, "any");
    ListParts(t);
    PartsAreShort(InnerOf(t));
    var parts := Cores(t, |t.children|);
    assert forall k | 0 <= k < |t.children| :: parts[k] == Core(t.children[k]);
  }

  lemma AtomIsEvaluated(t: Tree, arg: string, ctx: CfgContext)
    requires WellFormed(t) && t.Atom? && Trim(arg) == Core(t)
    ensures MatchPredicate(arg, ctx) == AtomHolds(Lower(t.name), ctx)
  {
    AtomIsNoCall(t.name, "not");
    AtomIsNoCall(t.name, "all");
    AtomIsNoCall(t.name, "any");
    hide CallInner, AtomHolds, Trim, Parts;
  }

  lemma {:induction false} CoreIsEvaluated(t: Tree, arg: string, ctx: CfgContext)
    requires WellFormed(t) && Trim(arg) == Core(t)
    ensures MatchPredicate(arg, ctx) == Meaning(t, ctx)
    decreases t
  {
    hide MatchPredicate, Core, Trim, Lower, AtomHolds;
    match t {
      case Atom(_, _, _) => AtomIsEvaluated(t, arg, ctx);
      case Not(_, _, _, c, _) =>
        NotIsEvaluated(t, arg, ctx);
        CoreIsTrimmedText(c);
        CoreIsEvaluated(c, Core(c), ctx);
      case All(_, _, _, cs, _) =>
        AllIsEvaluated(t, arg, ctx);
        forall k | 0 <= k < |cs|
          ensures MatchPredicate(Core(cs[k]), ctx) == Meaning(cs[k], ctx)
        {
          CoreIsTrimmedText(cs[k]);
          CoreIsEvaluated(cs[k], Core(cs[k]), ctx);
        }
      case Any(_, _, _, cs, _) =>
        AnyIsEvaluated(t, arg, ctx);
        forall k | 0 <= k < |cs|
          ensures MatchPredicate(Core(cs[k]), ctx) == Meaning(cs[k], ctx)
        {
          CoreIsTrimmedText(cs[k]);
          CoreIsEvaluated(cs[k], Core(cs[k]), ctx);
        }
    }
  }

  lemma CoreIsTrimmedText(t: Tree)
    requires WellFormed(t)
    ensures Trim(Core(t)) == Core(t)
  {
    CoreIsTrimmed(t);
    TrimTrimmed(Core(t));
  }

  /** The text of any tree, whatever its nesting, spacing and case. */
  lemma RenderingIsEvaluated(t: Tree, ctx: CfgContext)
    requires WellFormed(t)
    ensures MatchPredicate(Render(t), ctx) == Meaning(t, ctx)
  {
    CoreIsTrimmed(t);
    CoreIsEvaluated(t, Render(t), ctx);
  }

  // ----- unrecognised names -----

  predicate Recognised(name: string) {
    name in {"linux", "windows", "macos", "unix", "debug", "release"}
  }

  /** What each name tests, in any case and with white space around it: a target by its own name,
      `unix` either of its two targets, a build mode; any other name never holds. */
  lemma NamesAreEvaluated(lead: string, name: string, trail: string, ctx: CfgContext)
    requires Text.Blank(lead) && Text.Blank(trail) && IsAtomName(name)
    ensures var low := Lower(name);
            MatchPredicate(lead + name + trail, ctx) <==>
              || (low == ctx.targetOs && low in {"linux", "windows", "macos"})
              || (low == "unix" && ctx.targetOs in {"linux", "macos"})
              || (low == "debug" && !ctx.release) || (low == "release" && ctx.release)
  {
    hide MatchPredicate, Lower, IsAtomName;
    var t := Atom(lead, name, trail);
    AtomText(t);
    RenderingIsEvaluated(t, ctx);
  }

  lemma AtomText(t: Tree)
    requires t.Atom?
    ensures Render(t) == t.lead + t.name + t.trail
  {
  }

  /** The meaning if the unrecognised names in `extra` were to hold. */
  predicate MeaningWith(t: Tree, ctx: CfgContext, extra: set<string>) {
    match t
    case Atom(_, name, _) => AtomHolds(Lower(name), ctx) || (!Recognised(Lower(name)) && Lower(name) in extra)
    case Not(_, _, _, c, _) => !MeaningWith(c, ctx, extra)
    case All(_, _, _, cs, _) => forall k | 0 <= k < |cs| :: MeaningWith(cs[k], ctx, extra)
    case Any(_, _, _, cs, _) => exists k | 0 <= k < |cs| :: MeaningWith(cs[k], ctx, extra)
  }

  /** Every unrecognised name stands under an even number of `not`s, or an odd one if not `positive`. */
  predicate UnknownOnly(t: Tree, positive: bool) {
    match t
    case Atom(_, name, _) => positive || Recognised(Lower(name))
    case Not(_, _, _, c, _) => UnknownOnly(c, !positive)
    case All(_, _, _, cs, _) => forall k | 0 <= k < |cs| :: UnknownOnly(cs[k], positive)
    case Any(_, _, _, cs, _) => forall k | 0 <= k < |cs| :: UnknownOnly(cs[k], positive)
  }

  /** Unless a `not` intervenes, code is kept only if it would be kept whatever the
      unrecognised names stood for. */
  lemma {:induction false} UnknownFailsClosed(t: Tree, ctx: CfgContext, extra: set<string>, positive: bool)
    requires UnknownOnly(t, positive)
    ensures positive ==> (Meaning(t, ctx) ==> MeaningWith(t, ctx, extra))
    ensures !positive ==> (MeaningWith(t, ctx, extra) ==> Meaning(t, ctx))
    decreases t
  {
    hide AtomHolds, Lower, Recognised;
    match t
    case Atom(_, _, _) =>
    case Not(_, _, _, c, _) => UnknownFailsClosed(c, ctx, extra, !positive);
    case All(_, _, _, cs, _) =>
      forall k | 0 <= k < |cs|
        ensures positive ==> (Meaning(cs[k], ctx) ==> MeaningWith(cs[k], ctx, extra))
        ensures !positive ==> (MeaningWith(cs[k], ctx, extra) ==> Meaning(cs[k], ctx))
      {
        UnknownFailsClosed(cs[k], ctx, extra, positive);
      }
    case Any(_, _, _, cs, _) =>
      forall k | 0 <= k < |cs|
        ensures positive ==> (Meaning(cs[k], ctx) ==> MeaningWith(cs[k], ctx, extra))
        ensures !positive ==> (MeaningWith(cs[k], ctx, extra) ==> Meaning(cs[k], ctx))
      {
        UnknownFailsClosed(cs[k], ctx, extra, positive);
      }
  }

  /** An unrecognised name under `n` `not`s. */
  predicate NegatedUnknown(t: Tree, n: nat)
    decreases t
  {
    match t
    case Atom(_, name, _) => n == 0 && !Recognised(Lower(name))
    case Not(_, _, _, c, _) => n > 0 && NegatedUnknown(c, n - 1)
    case _ => false
  }

  lemma {:induction false} NegatedUnknownMeans(t: Tree, n: nat, ctx: CfgContext)
    requires NegatedUnknown(t, n)
    ensures Meaning(t, ctx) <==> n % 2 == 1
    decreases t
  {
    if t.Not? {
      NegatedUnknownMeans(t.child, n - 1, ctx);
    }
  }

  /** However the predicate is spaced and spelt, an unrecognised name under an odd number of
      `not`s keeps the declaration instead of stripping it; under an even number it strips. */
  lemma NegatedUnknownHolds(t: Tree, n: nat, ctx: CfgContext)
    requires WellFormed(t) && NegatedUnknown(t, n)
    ensures MatchPredicate(Render(t), ctx) <==> n % 2 == 1
  {
    hide *;
    NegatedUnknownMeans(t, n, ctx);
    RenderingIsEvaluated(t, ctx);
  }

  // ----- stripping a module -----

  datatype Annotation = Annotation(name: string, args: seq<string>)

  /** Traits, impls and type aliases carry no annotations. */
  datatype Decl = Annotated(id: nat, annotations: seq<Annotation>) | Unannotated(id: nat)

  predicate Evaluate(a: Annotation, ctx: CfgContext) {
    forall k | 0 <= k < |a.args| :: MatchPredicate(a.args[k], ctx)
  }

  predicate ShouldKeep(d: Decl, ctx: CfgContext) {
    d.Annotated? ==> forall k | 0 <= k < |d.annotations| && d.annotations[k].name == "cfg" ::
        Evaluate(d.annotations[k], ctx)
  }

  function Kept(ds: seq<Decl>, ctx: CfgContext): seq<Decl> {
    if ds == [] then []
    else Kept(ds[..|ds| - 1], ctx) + (if ShouldKeep(ds[|ds| - 1], ctx) then [ds[|ds| - 1]] else [])
  }

  class Module {
    var declarations: seq<Decl>

    constructor (declarations: seq<Decl>)
      ensures this.declarations == declarations
    {
      this.declarations := declarations;
    }

    method StripCfg(ctx: CfgContext)
      modifies this
      ensures declarations == Kept(old(declarations), ctx)
    {
      var kept := [];
      for k := 0 to |declarations|
        invariant declarations == old(declarations)
        invariant kept == Kept(declarations[..k], ctx)
      {
        if ShouldKeep(declarations[k], ctx) {
          kept := kept + [declarations[k]];
        }
        assert declarations[..k + 1][..k] == declarations[..k];
      }
      assert declarations[..|declarations|] == declarations;
      declarations := kept;
    }
  }

  /** The predicates of a declaration, one list of trees for each of its `cfg` annotations. */
  predicate Says(d: Decl, trees: seq<seq<Tree>>) {
    && d.Annotated? && |trees| == |d.annotations|
    && forall k | 0 <= k < |trees| && d.annotations[k].name == "cfg" ::
         && |trees[k]| == |d.annotations[k].args|
         && forall j | 0 <= j < |trees[k]| :: WellFormed(trees[k][j]) && d.annotations[k].args[j] == Render(trees[k][j])
  }

  predicate AllHold(ts: seq<Tree>, ctx: CfgContext) {
    forall j | 0 <= j < |ts| :: Meaning(ts[j], ctx)
  }

  /** A declaration stays iff all predicates of all its `cfg` annotations hold; what stays
      keeps its order, and stripping again changes nothing. */
  lemma StrippingFollowsTheTrees(d: Decl, trees: seq<seq<Tree>>, ctx: CfgContext)
    requires Says(d, trees)
    ensures ShouldKeep(d, ctx) <==> forall k | 0 <= k < |trees| && d.annotations[k].name == "cfg" ::
              AllHold(trees[k], ctx)
  {
    hide MatchPredicate, Meaning, Render, WellFormed;
    forall k | 0 <= k < |trees| && d.annotations[k].name == "cfg"
      ensures Evaluate(d.annotations[k], ctx) <==> AllHold(trees[k], ctx)
    {
      forall j | 0 <= j < |trees[k]|
        ensures MatchPredicate(d.annotations[k].args[j], ctx) == Meaning(trees[k][j], ctx)
      {
        RenderingIsEvaluated(trees[k][j], ctx);
      }
    }
  }

  lemma {:induction false} KeptSplits(a: seq<Decl>, b: seq<Decl>, ctx: CfgContext)
    ensures Kept(a + b, ctx) == Kept(a, ctx) + Kept(b, ctx)
    decreases |b|
  {
    hide ShouldKeep;
    if b == [] {
      assert a + b == a;
    } else {
      var init, last := b[..|b| - 1], b[|b| - 1];
      assert (a + b)[..|a + b| - 1] == a + init;
      KeptSplits(a, init, ctx);
    }
  }

  lemma {:induction false} KeptExactly(ds: seq<Decl>, ctx: CfgContext)
    ensures forall d :: d in Kept(ds, ctx) <==> d in ds && ShouldKeep(d, ctx)
    ensures Kept(Kept(ds, ctx), ctx) == Kept(ds, ctx)
    decreases |ds|
  {
    hide ShouldKeep;
    if ds != [] {
      var init, last := ds[..|ds| - 1], ds[|ds| - 1];
      KeptExactly(init, ctx);
      assert ds == init + [last];
      assert Kept([last], ctx) == if ShouldKeep(last, ctx) then [last] else [] by {
        assert [last][..0] == [];
      }
      KeptSplits(Kept(init, ctx), Kept([last], ctx), ctx);
      KeptSplits(init, [last], ctx);
    }
  }
}
