/** Preprocessor lines as the header parser (compiler/crates/kryos-bindgen/src/c_parser.rs
    `parse_preprocessor`, `parse_define`) reads them: constants are kept, macros with parameters and
    all other directives are skipped. */
module DefineRoundTrip {
  import opened Wrappers
  import opened Numerals
  import opened HeaderGrammar
  import opened HeaderLayout
  import opened NumericConstants
  import Text

  // ----- lines -----

  datatype Line =
    | Constant(hash: string, gap: string, name: string, lead: string, value: string, trail: string)
    | Macro(hash: string, gap: string, name: string, rest: string)
    | Other(hash: string, word: string, rest: string)

  predicate IsTab(c: char) {
    c == ' ' || c == '\t'
  }

  predicate Tabs(t: string) {
    forall k | 0 <= k < |t| :: IsTab(t[k])
  }

  /** What may stand behind a value: also a carriage return. */
  predicate Trail(t: string) {
    forall k | 0 <= k < |t| :: IsTab(t[k]) || t[k] == '\r'
  }

  predicate NoBreak(t: string) {
    forall k | 0 <= k < |t| :: t[k] != '\n'
  }

  /** A value stands on one line. */
  predicate ValueOk(v: string) {
    Text.Trimmed(v) && NoBreak(v) && (v != "" ==> v[|v| - 1] != '\\')
  }

  predicate LineOk(l: Line) {
    match l
    case Constant(hash, gap, name, lead, value, trail) =>
      && Tabs(hash) && Tabs(gap) && gap != "" && IsWord(name) && Tabs(lead) && ValueOk(value) && Trail(trail)
      && (value != "" ==> lead != "")
    case Macro(hash, gap, name, rest) => Tabs(hash) && Tabs(gap) && gap != "" && IsWord(name) && NoBreak(rest)
    case Other(hash, word, rest) =>
      Tabs(hash) && IsWord(word) && word != "define" && NoBreak(rest) && (rest != "" ==> !IsIdentChar(rest[0]))
  }

  /** What stands behind the name of a macro. */
  function Tail(l: Line): string {
    match l
    case Constant(_, _, _, lead, value, trail) => lead + (value + trail)
    case Macro(_, _, _, rest) => "(" + rest
    case Other(_, _, rest) => rest
  }

  function Head(l: Line): string {
    match l
    case Constant(hash, gap, name, _, _, _) => "#" + (hash + ("define" + (gap + (name + Tail(l)))))
    case Macro(hash, gap, name, _) => "#" + (hash + ("define" + (gap + (name + Tail(l)))))
    case Other(hash, word, _) => "#" + (hash + (word + Tail(l)))
  }

  function LineText(l: Line): string {
    Head(l) + "\n"
  }

  function ReadLine(l: Line): seq<CItem> {
    if l.Constant? && IsSimpleConstant(l.value) then [Define(l.name, StripNumericSuffix(l.value))] else []
  }

  /** A number, a text or a character is a constant; other macros are none. */
  function LineMeaning(l: Line): seq<CItem> {
    if l.Constant? && IsSimpleConstant(l.value) then [Define(l.name, l.value)] else []
  }

  // ----- reading a line -----

  lemma {:induction false} TabsAreSkipped(s: string, i: nat, t: string)
    requires StartsWith(s, i, t) && Tabs(t)
    requires var e := i + |t|; e < |s| ==> !IsSpace(s[e])
    ensures SkipSpace(s, i) == i + |t|
    decreases |t|
  {
    if t != "" {
      CharAt(s, i, t, 0);
      assert t == [t[0]] + t[1..];
      SplitAt(s, i, [t[0]], t[1..]);
      TabsAreSkipped(s, i + 1, t[1..]);
    }
  }

  /** A word that stands right here. */
  lemma WordHere(s: string, j: nat, w: string)
    requires StartsWith(s, j, w) && IsWord(w)
    requires var e := j + |w|; e < |s| ==> !IsIdentChar(s[e])
    ensures ReadIdent(s, j) == (Some(w), j + |w|) && j < |s| && !IsSpace(s[j])
  {
    hide Blank;
    CharAt(s, j, w, 0);
    BlankHere(s, j);
    WhileIdentReads(s, j, w);
  }

  lemma LineEnds(s: string, k: nat, t: string, j: nat)
    requires StartsWith(s, k, t + "\n") && NoBreak(t) && k <= j <= k + |t|
    ensures Text.Find(s, j, '\n') == k + |t| < |s| && SkipLine(s, j) == k + |t| + 1
  {
    var e := k + |t|;
    forall m | j <= m < e
      ensures s[m] != '\n'
    {
      CharAt(s, k, t + "\n", m - k);
    }
    CharAt(s, k, t + "\n", |t|);
    FindsFirst(s, j, '\n', e);
  }

  lemma TabsDoNotBreak(t: string)
    requires Tabs(t) || Trail(t) || IsWord(t)
    ensures NoBreak(t)
  {
  }

  lemma BothDoNotBreak(a: string, b: string)
    requires NoBreak(a) && NoBreak(b)
    ensures NoBreak(a + b)
  {
  }

  lemma TailDoesNotBreak(l: Line)
    requires LineOk(l)
    ensures NoBreak(Tail(l))
  {
    hide NoBreak, Tabs, Trail, IsWord, Text.Trimmed;
    match l
    case Constant(_, _, _, lead, value, trail) =>
      TabsDoNotBreak(lead);
      TabsDoNotBreak(trail);
      BothDoNotBreak(value, trail);
      BothDoNotBreak(lead, value + trail);
    case Macro(_, _, _, rest) =>
      assert NoBreak("(") by {
        CloserDoesNotBreak();
      }
      BothDoNotBreak("(", rest);
    case Other(_, _, _) =>
  }

  lemma CloserDoesNotBreak()
    ensures NoBreak("(") && NoBreak("#") && NoBreak("define") && IsWord("define")
  {
  }

  lemma LineDoesNotBreak(l: Line)
    requires LineOk(l)
    ensures NoBreak(Head(l))
  {
    hide NoBreak, Tabs, Trail, IsWord, ValueOk, Tail;
    CloserDoesNotBreak();
    TailDoesNotBreak(l);
    TabsDoNotBreak(l.hash);
    if l.Other? {
      TabsDoNotBreak(l.word);
      BothDoNotBreak(l.word, Tail(l));
      BothDoNotBreak(l.hash, l.word + Tail(l));
      BothDoNotBreak("#", l.hash + (l.word + Tail(l)));
    } else {
      TabsDoNotBreak(l.gap);
      TabsDoNotBreak(l.name);
      BothDoNotBreak(l.name, Tail(l));
      BothDoNotBreak(l.gap, l.name + Tail(l));
      BothDoNotBreak("define", l.gap + (l.name + Tail(l)));
      BothDoNotBreak(l.hash, "define" + (l.gap + (l.name + Tail(l))));
      BothDoNotBreak("#", l.hash + ("define" + (l.gap + (l.name + Tail(l)))));
    }
  }

  /** What stands behind the name ends it. */
  lemma TailOpens(l: Line)
    requires LineOk(l)
    ensures var t := Tail(l) + "\n"; t != "" && !IsIdentChar(t[0]) && (!l.Macro? && !l.Other? ==> t[0] != '(')
    ensures l.Macro? ==> (Tail(l) + "\n")[0] == '('
  {
    hide Text.Trimmed, NoBreak, IsWord;
    if l.Constant? && l.lead == "" {
      assert Tail(l) == l.trail;
    }
  }

  /** Behind the sharp sign: white space and a word. */
  lemma DirectiveParts(s: string, k: nat, hash: string, word: string, rest: string)
    requires StartsWith(s, k, "#" + (hash + (word + rest))) && Tabs(hash) && IsWord(word)
    requires rest != "" && !IsIdentChar(rest[0])
    ensures var j := k + 1 + |hash|;
            && k + 1 <= |s| && SkipSpace(s, k + 1) == j && ReadIdent(s, j) == (Some(word), j + |word|)
            && StartsWith(s, j + |word|, rest)
  {
    hide Tabs, IsWord, StartsWith, Blank, ReadIdent;
    var j := k + 1 + |hash|;
    SplitAt(s, k, "#", hash + (word + rest));
    SplitAt(s, k + 1, hash, word + rest);
    SplitAt(s, j, word, rest);
    CharAt(s, j + |word|, rest, 0);
    CharAt(s, k, "#" + (hash + (word + rest)), 0);
    WordHere(s, j, word);
    TabsAreSkipped(s, k + 1, hash);
  }

  /** Behind the word `define`: white space and a name. */
  lemma NameIsRead(s: string, i: nat, gap: string, name: string, rest: string)
    requires StartsWith(s, i, gap + (name + rest)) && Tabs(gap) && IsWord(name)
    requires rest != "" && !IsIdentChar(rest[0])
    ensures var j := i + |gap|;
            && i <= |s| && SkipSpace(s, i) == j && ReadIdent(s, j) == (Some(name), j + |name|)
            && StartsWith(s, j + |name|, rest) && PeekIs(s, j + |name|, rest[0])
  {
    hide Tabs, IsWord, StartsWith, Blank, ReadIdent;
    var j := i + |gap|;
    SplitAt(s, i, gap, name + rest);
    SplitAt(s, j, name, rest);
    CharAt(s, j + |name|, rest, 0);
    WordHere(s, j, name);
    TabsAreSkipped(s, i, gap);
  }

  // ----- the body of a constant -----

  lemma {:induction false} TabsBefore(s: string, i: nat, lead: string)
    requires StartsWith(s, i, lead) && Tabs(lead)
    ensures SkipTabs(s, i) == SkipTabs(s, i + |lead|)
    decreases |lead|
  {
    if lead != "" {
      CharAt(s, i, lead, 0);
      assert lead == [lead[0]] + lead[1..];
      SplitAt(s, i, [lead[0]], lead[1..]);
      TabsBefore(s, i + 1, lead[1..]);
    }
  }

  /** Where no value stands the tabs in front of the line break are skipped too. */
  lemma {:induction false} TabsLeft(s: string, i: nat, trail: string) returns (n: nat)
    requires StartsWith(s, i, trail + "\n") && Trail(trail)
    ensures n <= |trail| && SkipTabs(s, i) == i + n && StartsWith(s, i + n, trail[n..] + "\n") && Trail(trail[n..])
    decreases |trail|
  {
    CharAt(s, i, trail + "\n", 0);
    if trail != "" && IsTab(trail[0]) {
      assert trail + "\n" == [trail[0]] + (trail[1..] + "\n");
      SplitAt(s, i, [trail[0]], trail[1..] + "\n");
      n := TabsLeft(s, i + 1, trail[1..]);
      assert trail[1..][n..] == trail[n + 1..];
      n := n + 1;
    } else {
      n := 0;
      assert trail[0..] == trail;
    }
  }

  lemma TrailIsBlank(t: string)
    requires Trail(t)
    ensures Text.Blank(t + "\n")
  {
  }

  lemma TrailIsTrimmed(value: string, trail: string)
    requires Text.Trimmed(value) && Trail(trail)
    ensures Text.Trim(value + trail + "\n") == value
  {
    TrailIsBlank(trail);
    hide Text.Trim, Text.Trimmed, Text.Blank, Trail;
    assert "" + value + (trail + "\n") == value + trail + "\n";
    Text.TrimPadded("", value, trail + "\n");
  }

  lemma NoBackslash(s: string, i: nat, value: string, trail: string)
    requires StartsWith(s, i, value + trail + "\n") && ValueOk(value) && Trail(trail)
    ensures var e := i + |value| + |trail|; e > i ==> e <= |s| && s[e - 1] != '\\'
  {
    hide Text.Trimmed, NoBreak;
    var t := value + trail;
    if t != "" {
      CharAt(s, i, t + "\n", |t| - 1);
      assert t[|t| - 1] == if trail != "" then trail[|trail| - 1] else value[|value| - 1];
    }
  }

  /** The value and what is trimmed behind it. */
  lemma BodyIsRead(s: string, i: nat, value: string, trail: string)
    requires StartsWith(s, i, value + trail + "\n") && ValueOk(value) && Trail(trail)
    ensures var e := i + |value| + |trail| + 1;
            i <= e <= |s| && MacroEnd(s, i) == e && Text.Trim(s[i..e]) == value
  {
    NoBackslash(s, i, value, trail);
    assert NoBreak(value + trail);
    TrailIsTrimmed(value, trail);
    hide Text.Trim, Text.Trimmed, Trail, NoBreak;
    LineEnds(s, i, value + trail, i);
  }

  lemma MacroBodyIsRead(s: string, i: nat, lead: string, value: string, trail: string)
    requires StartsWith(s, i, lead + (value + trail) + "\n") && Tabs(lead) && ValueOk(value) && Trail(trail)
    ensures i <= |s| && MacroBody(s, i) == (value, i + |lead| + |value| + |trail| + 1)
  {
    hide Text.Trim, ValueOk, Trail, Tabs, MacroEnd, SkipTabs, StartsWith;
    var v := i + |lead|;
    assert lead + (value + trail) + "\n" == lead + (value + trail + "\n");
    SplitAt(s, i, lead, value + trail + "\n");
    CharAt(s, i, lead + (value + trail + "\n"), 0);
    TabsBefore(s, i, lead);
    if value == "" {
      assert value + trail + "\n" == trail + "\n";
      var n := TabsLeft(s, v, trail);
      assert value + trail[n..] + "\n" == trail[n..] + "\n";
      BodyIsRead(s, v + n, value, trail[n..]);
    } else {
      ValueStops(s, v, value, trail);
      BodyIsRead(s, v, value, trail);
    }
  }

  lemma ValueStops(s: string, v: nat, value: string, trail: string)
    requires StartsWith(s, v, value + trail + "\n") && ValueOk(value) && value != ""
    ensures v <= |s| && SkipTabs(s, v) == v
  {
    CharAt(s, v, value + trail + "\n", 0);
    assert Text.IsWhitespace(' ') && Text.IsWhitespace('\t');
    hide Text.IsWhitespace;
  }

  lemma DefineIsRead(s: string, st: State, l: Line)
    requires Ok(s, st) && l.Constant? && LineOk(l)
    requires StartsWith(s, st.pos, l.gap + (l.name + (Tail(l) + "\n")))
    ensures DefineDirective(s, st)
         == State(st.pos + |l.gap| + |l.name| + |Tail(l)| + 1, st.items + ReadLine(l), st.errors)
  {
    hide ReadIdent, SkipSpace, MacroBody, StripNumericSuffix, IsSimpleConstant, StartsWith, ValueOk, Tabs, Trail,
      IsWord,
         SkipLine, Tail;
    TailOpens(l);
    NameIsRead(s, st.pos, l.gap, l.name, Tail(l) + "\n");
    TailOf(l);
    MacroBodyIsRead(s, st.pos + |l.gap| + |l.name|, l.lead, l.value, l.trail);
  }

  lemma TailOf(l: Line)
    requires l.Constant?
    ensures Tail(l) == l.lead + (l.value + l.trail) && |Tail(l)| == |l.lead| + |l.value| + |l.trail|
  {
  }

  lemma MacroIsSkipped(s: string, st: State, l: Line)
    requires Ok(s, st) && l.Macro? && LineOk(l)
    requires StartsWith(s, st.pos, l.gap + (l.name + (Tail(l) + "\n")))
    ensures DefineDirective(s, st) == st.(pos := st.pos + |l.gap| + |l.name| + |Tail(l)| + 1)
  {
    hide ReadIdent, SkipSpace, MacroBody, StripNumericSuffix, IsSimpleConstant, StartsWith, Tabs, IsWord, SkipLine,
         Tail, NoBreak;
    TailOpens(l);
    TailDoesNotBreak(l);
    NameIsRead(s, st.pos, l.gap, l.name, Tail(l) + "\n");
    var j := st.pos + |l.gap| + |l.name|;
    LineEnds(s, j, Tail(l), j);
  }

  lemma Regrouped(a: string, b: string, c: string)
    ensures a + (b + c) == a + b + c && |a + (b + c)| == |a| + |b| + |c|
  {
  }

  lemma DefineParts(l: Line)
    requires LineOk(l) && !l.Other?
    ensures var rest := l.gap + (l.name + (Tail(l) + "\n"));
            && LineText(l) == "#" + (l.hash + ("define" + rest)) && rest != "" && !IsIdentChar(rest[0])
  {
    hide IsWord, NoBreak, ValueOk, Trail, Tail;
    Regrouped(l.name, Tail(l), "\n");
    Regrouped(l.gap, l.name + Tail(l), "\n");
    Regrouped("define", l.gap + (l.name + Tail(l)), "\n");
    Regrouped(l.hash, "define" + (l.gap + (l.name + Tail(l))), "\n");
    Regrouped("#", l.hash + ("define" + (l.gap + (l.name + Tail(l)))), "\n");
    assert l.gap[0] == ' ' || l.gap[0] == '\t';
  }

  lemma OtherParts(l: Line)
    requires LineOk(l) && l.Other?
    ensures var rest := Tail(l) + "\n";
            LineText(l) == "#" + (l.hash + (l.word + rest)) && rest != "" && !IsIdentChar(rest[0])
  {
    TailOpens(l);
    hide IsWord, NoBreak, Tail;
    Regrouped(l.word, Tail(l), "\n");
    Regrouped(l.hash, l.word + Tail(l), "\n");
    Regrouped("#", l.hash + (l.word + Tail(l)), "\n");
  }

  lemma HeadParts(l: Line)
    requires LineOk(l)
    ensures var word := if l.Other? then l.word else "define";
            var rest := if l.Other? then Tail(l) + "\n" else l.gap + (l.name + (Tail(l) + "\n"));
            && LineText(l) == "#" + (l.hash + (word + rest)) && rest != "" && !IsIdentChar(rest[0])
            && |LineText(l)| == 1 + |l.hash| + |word| + |rest|
  {
    hide LineText, LineOk, Tail, IsIdentChar;
    if l.Other? {
      OtherParts(l);
      Regrouped(l.hash, l.word, Tail(l) + "\n");
    } else {
      DefineParts(l);
      Regrouped(l.hash, "define", l.gap + (l.name + (Tail(l) + "\n")));
    }
  }

  /** A directive is read: what a constant says is kept, everything else is skipped. */
  lemma LineIsRead(s: string, st: State, l: Line)
    requires Ok(s, st) && LineOk(l) && StartsWith(s, st.pos, LineText(l))
    ensures st.pos < |s|
    ensures Preprocessor(s, st) == State(st.pos + |LineText(l)|, st.items + ReadLine(l), st.errors)
  {
    hide ReadIdent, SkipSpace, DefineDirective, StartsWith, Tabs, IsWord, SkipLine, Tail, NoBreak, Trail, ValueOk,
         LineText, StripNumericSuffix, IsSimpleConstant;
    var word := if l.Other? then l.word else "define";
    var rest := if l.Other? then Tail(l) + "\n" else l.gap + (l.name + (Tail(l) + "\n"));
    HeadParts(l);
    CharAt(s, st.pos, LineText(l), 0);
    CloserDoesNotBreak();
    DirectiveParts(s, st.pos, l.hash, word, rest);
    var j := st.pos + 1 + |l.hash| + |word|;
    StartsInside(s, j, rest);
    match l
    case Constant(_, _, _, _, _, _) => DefineIsRead(s, st.(pos := j), l);
    case Macro(_, _, _, _) => MacroIsSkipped(s, st.(pos := j), l);
    case Other(_, _, _) =>
      TailDoesNotBreak(l);
      LineEnds(s, j, Tail(l), j);
  }

  lemma StartsInside(s: string, i: nat, t: string)
    requires StartsWith(s, i, t)
    ensures i + |t| <= |s|
  {
  }

  /** Where the parser expects a declaration the whole line is skipped. */
  lemma LineIsSkipped(s: string, k: nat, l: Line)
    requires LineOk(l) && StartsWith(s, k, LineText(l))
    ensures k < |s| && s[k] == '#' && ReadIdent(s, k) == (None, k) && SkipLine(s, k) == k + |LineText(l)| <= |s|
  {
    hide Blank, Tail, Tabs, IsWord, NoBreak, Trail, ValueOk, StartsWith;
    LineDoesNotBreak(l);
    LineEnds(s, k, Head(l), k);
    CharAt(s, k, LineText(l), 0);
    BlankHere(s, k);
  }

  lemma LineIsToken(l: Line)
    ensures TokenOk(LineText(l)) && LineText(l)[0] == '#' && !EndsInWord(LineText(l)) && !StartsWord(LineText(l))
  {
    hide Tail;
  }

  /** A line says what was meant exactly if it is no constant or its value survives. */
  lemma LineIsReadExactly(l: Line)
    ensures ReadLine(l) == LineMeaning(l) <==> (l.Constant? && IsSimpleConstant(l.value) ==> Survives(l.value))
  {
    hide IsSimpleConstant, StripNumericSuffix, Survives;
    if l.Constant? {
      StaysExactly(l.value);
    }
  }
}
