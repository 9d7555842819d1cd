/** C header text as tokens with gaps between them: white space and comments, as the parser's
    `skip_whitespace_and_comments` and `read_ident` see them
    (compiler/crates/kryos-bindgen/src/c_parser.rs). */
module HeaderLayout {
  import opened Wrappers
  import opened HeaderGrammar
  import Text

  /** A word, a symbol, a number, or a text that is read as a whole, such as a directive's line. */
  type Token = string

  // ----- text at a position -----

  lemma SplitAt(s: string, i: nat, a: string, b: string)
    requires StartsWith(s, i, a + b)
    ensures StartsWith(s, i, a) && StartsWith(s, i + |a|, b)
  {
    var t := s[i..i + |a + b|];
    assert s[i..i + |a|] == t[..|a|];
    assert s[i + |a|..i + |a| + |b|] == t[|a|..];
  }

  lemma CharAt(s: string, i: nat, t: string, k: nat)
    requires StartsWith(s, i, t) && k < |t|
    ensures i + k < |s| && s[i + k] == t[k]
  {
    assert s[i..i + |t|][k] == t[k];
  }

  lemma NotThere(s: string, i: nat, t: string, k: nat)
    requires k < |t| && (i + k < |s| ==> s[i + k] != t[k])
    ensures !StartsWith(s, i, t)
  {
    if i + |t| <= |s| {
      assert s[i..i + |t|][k] == s[i + k];
    }
  }

  // ----- gaps -----

  datatype Filler = Space(c: char) | LineComment(body: string) | BlockComment(body: string)
  {
    predicate Valid() {
      match this
      case Space(c) => IsSpace(c)
      case LineComment(body) => forall k | 0 <= k < |body| :: body[k] != '\n'
      case BlockComment(body) => forall k | 0 <= k < |body| - 1 :: body[k] != '*' || body[k + 1] != '/'
    }

    function Text(): string {
      match this
      case Space(c) => [c]
      case LineComment(body) => "//" + body + "\n"
      case BlockComment(body) => "/*" + body + "*/"
    }
  }

  /** What stands between two tokens. */
  type Gap = seq<Filler>

  predicate GapOk(g: Gap) {
    forall k | 0 <= k < |g| :: g[k].Valid()
  }

  function GapText(g: Gap): string {
    if g == [] then "" else g[0].Text() + GapText(g[1..])
  }

  predicate Solid(c: char) {
    !IsSpace(c) && c != '/'
  }

  lemma BlankHere(s: string, i: nat)
    requires i <= |s| && (i < |s| ==> Solid(s[i]))
    ensures Blank(s, i) == i
  {
    NotThere(s, i, "//", 0);
    NotThere(s, i, "/*", 0);
  }

  /** Skipping blanks twice is skipping them once. */
  lemma {:induction false} BlankTwice(s: string, i: nat)
    requires i <= |s|
    ensures Blank(s, Blank(s, i)) == Blank(s, i)
    decreases |s| - i
  {
    var j := SkipSpace(s, i);
    if StartsWith(s, j, "//") {
      BlankTwice(s, SkipLine(s, j));
    } else if StartsWith(s, j, "/*") {
      BlankTwice(s, SkipBlockComment(s, j + 2));
    } else {
      assert SkipSpace(s, j) == j;
    }
  }

  lemma {:induction false} FindsFirst(s: string, i: nat, c: char, e: nat)
    requires i <= e < |s| && s[e] == c && forall k | i <= k < e :: s[k] != c
    ensures Text.Find(s, i, c) == e
    decreases e - i
  {
    if i < e {
      FindsFirst(s, i + 1, c, e);
    }
  }

  lemma {:induction false} ClosesFirst(s: string, i: nat, body: string)
    requires StartsWith(s, i, body + "*/") && BlockComment(body).Valid()
    ensures SkipBlockComment(s, i) == i + |body| + 2
    decreases |body|
  {
    var t := body + "*/";
    if body == "" {
      assert t == "*/";
    } else {
      assert t == [body[0]] + (body[1..] + "*/");
      SplitAt(s, i, [body[0]], body[1..] + "*/");
      ClosesFirst(s, i + 1, body[1..]);
      CharAt(s, i, t, 0);
      CharAt(s, i, t, 1);
      if body[0] == '*' {
        NotThere(s, i, "*/", 1);
      } else {
        NotThere(s, i, "*/", 0);
      }
    }
  }

  lemma SpaceIsSkipped(s: string, i: nat, c: char)
    requires IsSpace(c) && StartsWith(s, i, [c])
    ensures Blank(s, i) == Blank(s, i + 1)
  {
    CharAt(s, i, [c], 0);
    assert SkipSpace(s, i) == SkipSpace(s, i + 1);
    hide SkipSpace, IsSpace, StartsWith;
  }

  lemma FillerIsSkipped(s: string, i: nat, f: Filler)
    requires f.Valid() && StartsWith(s, i, f.Text())
    ensures Blank(s, i) == Blank(s, i + |f.Text()|)
  {
    hide Blank, IsSpace, StartsWith;
    match f
    case Space(c) => SpaceIsSkipped(s, i, c);
    case LineComment(body) => LineCommentIsSkipped(s, i, body);
    case BlockComment(body) => CommentIsSkipped(s, i, body);
  }

  lemma LineEnds(s: string, i: nat, body: string)
    requires LineComment(body).Valid() && StartsWith(s, i, "//" + body + "\n")
    ensures SkipLine(s, i) == i + |body| + 3 && StartsWith(s, i, "//") && s[i] == '/'
  {
    var t := "//" + body + "\n";
    assert t == "//" + (body + "\n");
    SplitAt(s, i, "//", body + "\n");
    CharAt(s, i, t, 0);
    var e := i + |body| + 2;
    forall k | i <= k < e ensures s[k] != '\n' {
      CharAt(s, i, t, k - i);
    }
    CharAt(s, i, t, |body| + 2);
    FindsFirst(s, i, '\n', e);
  }

  lemma LineCommentIsSkipped(s: string, i: nat, body: string)
    requires LineComment(body).Valid() && StartsWith(s, i, "//" + body + "\n")
    ensures Blank(s, i) == Blank(s, i + |body| + 3)
  {
    LineEnds(s, i, body);
    hide SkipLine, StartsWith, Filler.Valid;
  }

  lemma CommentIsSkipped(s: string, i: nat, body: string)
    requires BlockComment(body).Valid() && StartsWith(s, i, "/*" + body + "*/")
    ensures Blank(s, i) == Blank(s, i + |body| + 4)
  {
    var t := "/*" + body + "*/";
    SplitAt(s, i, "/*", body + "*/") by {
      assert t == "/*" + (body + "*/");
    }
    CharAt(s, i, t, 0);
    CharAt(s, i, t, 1);
    NotThere(s, i, "//", 1);
    assert SkipSpace(s, i) == i;
    ClosesFirst(s, i + 2, body);
  }

  lemma GapParts(s: string, i: nat, g: Gap)
    requires GapOk(g) && g != [] && StartsWith(s, i, GapText(g))
    ensures var j := i + |g[0].Text()|;
            && g[0].Valid() && StartsWith(s, i, g[0].Text()) && StartsWith(s, j, GapText(g[1..])) && GapOk(g[1..])
            && i + |GapText(g)| == j + |GapText(g[1..])|
  {
    hide Filler.Valid, Filler.Text, StartsWith;
    SplitAt(s, i, g[0].Text(), GapText(g[1..]));
  }

  lemma {:induction false} GapIsSkipped(s: string, i: nat, g: Gap)
    requires GapOk(g) && StartsWith(s, i, GapText(g))
    requires var e := i + |GapText(g)|; e < |s| ==> Solid(s[e])
    ensures Blank(s, i) == i + |GapText(g)|
    decreases |g|
  {
    hide Blank, Filler.Valid, Filler.Text, Solid, GapOk;
    if g == [] {
      BlankHere(s, i);
    } else {
      hide GapText, StartsWith;
      GapParts(s, i, g);
      FillerIsSkipped(s, i, g[0]);
      GapIsSkipped(s, i + |g[0].Text()|, g[1..]);
    }
  }

  // ----- tokens -----

  predicate TokenOk(t: Token) {
    t != "" && Solid(t[0])
  }

  predicate TokensOk(toks: seq<Token>) {
    forall k | 0 <= k < |toks| :: TokenOk(toks[k])
  }

  predicate EndsInWord(t: Token) {
    t != "" && IsIdentChar(t[|t| - 1])
  }

  predicate StartsWord(t: Token) {
    t != "" && IsIdentChar(t[0])
  }

  /** A token stands at `k` and does not run on. */
  predicate Stands(s: string, k: nat, t: Token) {
    && TokenOk(t) && StartsWith(s, k, t)
    && (EndsInWord(t) && k + |t| < |s| ==> !IsIdentChar(s[k + |t|]))
  }

  /** From the cursor on the text consists of these tokens and gaps. */
  predicate At(s: string, i: nat, toks: seq<Token>)
    decreases |toks|
  {
    && i <= |s|
    && var k := Blank(s, i);
       if toks == [] then k == |s| else Stands(s, k, toks[0]) && At(s, k + |toks[0]|, toks[1..])
  }

  predicate IsWord(w: string) {
    w != "" && forall k | 0 <= k < |w| :: IsIdentChar(w[k])
  }

  lemma {:induction false} WhileIdentReads(s: string, i: nat, w: string)
    requires StartsWith(s, i, w) && forall k | 0 <= k < |w| :: IsIdentChar(w[k])
    requires i + |w| < |s| ==> !IsIdentChar(s[i + |w|])
    ensures WhileIdent(s, i) == i + |w|
    decreases |w|
  {
    if w != "" {
      CharAt(s, i, w, 0);
      assert w == [w[0]] + w[1..];
      SplitAt(s, i, [w[0]], w[1..]);
      WhileIdentReads(s, i + 1, w[1..]);
    }
  }

  /** The cursor moves over the gap to the next token. */
  lemma Next(s: string, i: nat, toks: seq<Token>)
    requires At(s, i, toks)
    ensures var k := Blank(s, i);
            && Blank(s, k) == k && At(s, k, toks) && (toks == [] <==> k == |s|)
            && (toks != [] ==>
                  && toks[0] != "" && k + |toks[0]| <= |s| && s[k] == toks[0][0] && StartsWith(s, k, toks[0])
                  && At(s, k + |toks[0]|, toks[1..]))
  {
    hide Blank;
    BlankTwice(s, i);
    if toks != [] {
      CharAt(s, Blank(s, i), toks[0], 0);
    }
  }

  /** A word is read; where none stands the cursor stays. */
  lemma NextWord(s: string, i: nat, toks: seq<Token>)
    requires At(s, i, toks)
    ensures var k := Blank(s, i);
            && (toks != [] && IsWord(toks[0]) ==> ReadIdent(s, i) == ReadIdent(s, k) == (Some(toks[0]), k + |toks[0]|))
            && (toks != [] && !StartsWord(toks[0]) ==> ReadIdent(s, i) == ReadIdent(s, k) == (None, k))
            && (toks == [] ==> ReadIdent(s, i) == ReadIdent(s, k) == (None, k))
  {
    hide Blank;
    Next(s, i, toks);
    if toks != [] && IsWord(toks[0]) {
      WhileIdentReads(s, Blank(s, i), toks[0]);
    }
  }

  lemma WordIsRead(s: string, i: nat, toks: seq<Token>)
    requires At(s, i, toks) && toks != [] && IsWord(toks[0])
    ensures ReadIdent(s, i).0 == Some(toks[0]) && At(s, ReadIdent(s, i).1, toks[1..])
  {
    hide Blank, ReadIdent, Stands;
    Next(s, i, toks);
    NextWord(s, i, toks);
  }

  lemma NoWordIsRead(s: string, i: nat, toks: seq<Token>)
    requires At(s, i, toks) && (toks != [] ==> !StartsWord(toks[0]))
    ensures ReadIdent(s, i).0 == None && At(s, ReadIdent(s, i).1, toks)
  {
    hide Blank, ReadIdent, Stands;
    Next(s, i, toks);
    NextWord(s, i, toks);
  }

  /** A symbol of one character. */
  lemma NextSymbol(s: string, i: nat, c: char, toks: seq<Token>)
    requires At(s, i, toks)
    ensures var k := Blank(s, i);
            && (PeekIs(s, k, c) <==> toks != [] && toks[0][0] == c)
            && (toks != [] && toks[0] == [c] ==>
                  ExpectChar(s, i, c) == ExpectChar(s, k, c) == k + 1 && At(s, k + 1, toks[1..]))
            && (toks == [] || toks[0][0] != c ==> ExpectChar(s, i, c) == ExpectChar(s, k, c) == k && At(s, k, toks))
  {
    hide Blank;
    Next(s, i, toks);
  }

  // ----- the text of tokens and gaps -----

  /** One gap before each token and one at the end. */
  function Layout(toks: seq<Token>, gaps: seq<Gap>): string
    requires |gaps| == |toks| + 1
  {
    if toks == [] then GapText(gaps[0]) else GapText(gaps[0]) + (toks[0] + Layout(toks[1..], gaps[1..]))
  }

  /** Gaps are well formed, and words stand apart. */
  predicate GapsOk(toks: seq<Token>, gaps: seq<Gap>) {
    && |gaps| == |toks| + 1
    && (forall k | 0 <= k < |gaps| :: GapOk(gaps[k]))
    && forall k | 0 < k < |toks| :: EndsInWord(toks[k - 1]) && StartsWord(toks[k]) ==> gaps[k] != []
  }

  lemma FillerOpens(f: Filler)
    requires f.Valid()
    ensures f.Text() != "" && !IsIdentChar(f.Text()[0])
  {
  }

  /** What comes behind a word does not go on with it. */
  lemma LayoutOpens(toks: seq<Token>, gaps: seq<Gap>)
    requires TokensOk(toks) && GapsOk(toks, gaps) && (toks != [] && StartsWord(toks[0]) ==> gaps[0] != [])
    ensures Layout(toks, gaps) != "" ==> !IsIdentChar(Layout(toks, gaps)[0])
  {
    if gaps[0] != [] {
      FillerOpens(gaps[0][0]);
    }
  }

  lemma RestIsLaidOut(toks: seq<Token>, gaps: seq<Gap>)
    requires TokensOk(toks) && GapsOk(toks, gaps) && toks != []
    ensures TokensOk(toks[1..]) && GapsOk(toks[1..], gaps[1..])
  {
    hide TokenOk, GapOk, EndsInWord, StartsWord;
    forall k | 0 < k < |toks[1..]|
      ensures EndsInWord(toks[1..][k - 1]) && StartsWord(toks[1..][k]) ==> gaps[1..][k] != []
    {
      assert toks[1..][k - 1] == toks[k] && toks[1..][k] == toks[k + 1];
    }
  }

  lemma SuffixStarts(s: string, i: nat, a: string, b: string)
    requires i <= |s| && s[i..] == a + b
    ensures StartsWith(s, i, a) && i + |a| <= |s| && s[i + |a|..] == b
  {
    assert |s[i..]| == |a| + |b|;
    assert s[i..i + |a|] == s[i..][..|a|];
    assert s[i + |a|..] == s[i..][|a|..];
  }

  lemma NoneStands(s: string, i: nat, gaps: seq<Gap>)
    requires GapsOk([], gaps) && i <= |s| && s[i..] == Layout([], gaps)
    ensures At(s, i, [])
  {
    hide Blank, GapText, GapOk, Solid;
    assert GapText(gaps[0]) == GapText(gaps[0]) + "";
    SuffixStarts(s, i, GapText(gaps[0]), "");
    GapIsSkipped(s, i, gaps[0]);
  }

  /** The first token stands behind its gap, the others behind it. */
  lemma FirstStands(s: string, i: nat, toks: seq<Token>, gaps: seq<Gap>)
    requires TokensOk(toks) && GapsOk(toks, gaps) && toks != [] && i <= |s| && s[i..] == Layout(toks, gaps)
    ensures var k := i + |GapText(gaps[0])|; var e := k + |toks[0]|;
            && Blank(s, i) == k && Stands(s, k, toks[0]) && e <= |s| && s[e..] == Layout(toks[1..], gaps[1..])
  {
    hide Blank, GapText, GapOk, Stands, Solid;
    var k := i + |GapText(gaps[0])|;
    var rest := Layout(toks[1..], gaps[1..]);
    SuffixStarts(s, i, GapText(gaps[0]), toks[0] + rest);
    SuffixStarts(s, k, toks[0], rest);
    CharAt(s, k, toks[0], 0);
    GapIsSkipped(s, i, gaps[0]);
    TokenEnds(s, k, toks, gaps);
  }

  lemma {:induction false} LayoutStands(s: string, i: nat, toks: seq<Token>, gaps: seq<Gap>)
    requires TokensOk(toks) && GapsOk(toks, gaps) && i <= |s| && s[i..] == Layout(toks, gaps)
    ensures At(s, i, toks)
    decreases |toks|
  {
    hide Blank, GapText, GapOk, Layout, TokenOk, Stands;
    if toks == [] {
      NoneStands(s, i, gaps);
    } else {
      RestIsLaidOut(toks, gaps);
      FirstStands(s, i, toks, gaps);
      LayoutStands(s, i + |GapText(gaps[0])| + |toks[0]|, toks[1..], gaps[1..]);
    }
  }

  lemma TokenEnds(s: string, k: nat, toks: seq<Token>, gaps: seq<Gap>)
    requires TokensOk(toks) && GapsOk(toks, gaps) && toks != [] && StartsWith(s, k, toks[0])
    requires s[k + |toks[0]|..] == Layout(toks[1..], gaps[1..])
    ensures Stands(s, k, toks[0])
  {
    hide Layout, GapOk;
    var e := k + |toks[0]|;
    RestIsLaidOut(toks, gaps);
    if EndsInWord(toks[0]) && e < |s| {
      assert |toks| > 1 && StartsWord(toks[1]) ==> gaps[1] != [];
      LayoutOpens(toks[1..], gaps[1..]);
      assert s[e] == s[e..][0];
    }
  }
}
