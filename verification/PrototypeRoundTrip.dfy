/** C types and prototypes, with qualifiers, attributes and any gaps between their tokens: what the
    header parser (compiler/crates/kryos-bindgen/src/c_parser.rs) reads in such a text. */
module PrototypeRoundTrip {
  import opened Wrappers
  import opened Numerals
  import opened HeaderGrammar
  import opened HeaderLayout
  import opened TypeSpellings

  // ----- types as they are written -----

  datatype BaseText =
    | Spelled(words: seq<string>)                                // qualifiers stand anywhere among them
    | Tagged(before: seq<string>, keyword: string, tag: string, behind: Option<string>)

  /** A base type and for each star the qualifiers behind it. */
  datatype TypeText = TypeText(base: BaseText, stars: seq<seq<string>>)

  predicate AllQualifiers(qs: seq<string>) {
    forall k | 0 <= k < |qs| :: IsQualifier(qs[k])
  }

  /** A name the parser cannot take for part of a type. */
  predicate IsName(w: string) {
    IsWord(w) && !IsTypeKeyword(w) && !IsQualifier(w)
  }

  function Unqualified(ws: seq<string>): seq<string> {
    if ws == [] then []
    else if IsQualifier(ws[0]) then Unqualified(ws[1..])
    else [ws[0]] + Unqualified(ws[1..])
  }

  predicate BaseOk(b: BaseText) {
    match b
    case Spelled(ws) => IsSpecifier(Unqualified(ws))
    case Tagged(before, keyword, tag, behind) =>
      && AllQualifiers(before) && (keyword == "struct" || keyword == "enum") && IsName(tag)
      && (behind.Some? ==> IsQualifier(behind.value))
  }

  predicate StarsOk(stars: seq<seq<string>>) {
    forall k | 0 <= k < |stars| :: AllQualifiers(stars[k])
  }

  predicate TypeOk(t: TypeText) {
    BaseOk(t.base) && StarsOk(t.stars)
  }

  function Maybe(t: Option<Token>): seq<Token> {
    if t.Some? then [t.value] else []
  }

  /** The words of a base type, up to its name if it has one. */
  function LeadTokens(b: BaseText): seq<Token> {
    match b
    case Spelled(ws) => ws
    case Tagged(before, keyword, _, _) => before + [keyword]
  }

  function TagTokens(b: BaseText): seq<Token> {
    match b
    case Spelled(_) => []
    case Tagged(_, _, tag, _) => [tag]
  }

  function BehindTokens(b: BaseText): seq<Token> {
    match b
    case Spelled(_) => []
    case Tagged(_, _, _, behind) => Maybe(behind)
  }

  function StarTokens(stars: seq<seq<string>>): seq<Token> {
    if stars == [] then [] else ["*"] + (stars[0] + StarTokens(stars[1..]))
  }

  function TypeTokensOf(t: TypeText): seq<Token> {
    LeadTokens(t.base) + (TagTokens(t.base) + (BehindTokens(t.base) + StarTokens(t.stars)))
  }

  /** What the parser makes of it. */
  function ReadBase(b: BaseText): CType {
    match b
    case Spelled(ws) => ResolveTypeTokens(Unqualified(ws))
    case Tagged(_, _, tag, _) => Named(tag)
  }

  function ReadType(t: TypeText): CType {
    Pointers(|t.stars|, ReadBase(t.base))
  }

  /** What it says. */
  function BaseMeaning(b: BaseText): CType
    requires BaseOk(b)
  {
    match b
    case Spelled(ws) => CMeaning(Unqualified(ws))
    case Tagged(_, _, tag, _) => Named(tag)
  }

  function TypeMeaning(t: TypeText): CType
    requires TypeOk(t)
  {
    Pointers(|t.stars|, BaseMeaning(t.base))
  }

  predicate TypeIsUnderstood(t: TypeText)
    requires TypeOk(t)
  {
    t.base.Spelled? ==> Understood(Unqualified(t.base.words))
  }

  lemma {:induction false} SamePointers(n: nat, a: CType, b: CType)
    ensures Pointers(n, a) == Pointers(n, b) <==> a == b
  {
    if n > 0 {
      SamePointers(n - 1, a, b);
    }
  }

  /** A type is read as it is meant exactly when its words are understood. */
  lemma TypeIsUnderstoodExactly(t: TypeText)
    requires TypeOk(t)
    ensures ReadType(t) == TypeMeaning(t) <==> TypeIsUnderstood(t)
  {
    hide ResolveTypeTokens, CMeaning, Understood, IsSpecifier;
    SamePointers(|t.stars|, ReadBase(t.base), BaseMeaning(t.base));
    if t.base.Spelled? {
      ResolvesExactly(Unqualified(t.base.words));
    }
  }

  // ----- reading types -----

  /** What ends the words of a type: a name or no word at all. */
  predicate EndsWords(rest: seq<Token>) {
    rest != [] ==> !StartsWord(rest[0]) || IsName(rest[0])
  }

  /** And its stars. */
  predicate EndsType(rest: seq<Token>) {
    EndsWords(rest) && (rest != [] ==> rest[0] != "" && rest[0][0] != '*')
  }

  /** Words the parser takes for a type, once one was taken if `started`. */
  predicate WordsFit(ws: seq<string>, started: bool) {
    ws != [] ==>
      && IsWord(ws[0])
      && if IsQualifier(ws[0]) then WordsFit(ws[1..], started)
         else (IsTypeKeyword(ws[0]) || (!started && IsTypeStart(ws[0]))) && WordsFit(ws[1..], true)
  }

  lemma KnownWords()
    ensures IsWord("const") && IsWord("volatile") && IsWord("void") && IsWord("char") && IsWord("short")
    ensures IsWord("int") && IsWord("long") && IsWord("float") && IsWord("double") && IsWord("signed")
    ensures IsWord("unsigned") && IsWord("struct") && IsWord("enum")
  {
  }

  lemma KeywordIsWord(w: string)
    requires IsTypeKeyword(w) || IsQualifier(w)
    ensures IsWord(w)
  {
    KnownWords();
    hide IsWord;
  }

  lemma {:induction false} KeywordsFit(ws: seq<string>, started: bool)
    requires forall k | 0 <= k < |Unqualified(ws)| :: IsTypeKeyword(Unqualified(ws)[k])
    ensures WordsFit(ws, started)
    decreases |ws|
  {
    hide IsTypeKeyword, IsQualifier, IsTypeStart, IsWord;
    if ws != [] {
      if IsQualifier(ws[0]) {
        assert Unqualified(ws) == Unqualified(ws[1..]);
        KeywordIsWord(ws[0]);
        KeywordsFit(ws[1..], started);
      } else {
        assert Unqualified(ws)[0] == ws[0] && Unqualified(ws)[1..] == Unqualified(ws[1..]);
        KeywordIsWord(ws[0]);
        KeywordsFit(ws[1..], true);
      }
    }
  }

  lemma {:induction false} OneWordFits(ws: seq<string>, w: string)
    requires Unqualified(ws) == [w] && IsWord(w) && IsTypeStart(w)
    ensures WordsFit(ws, false)
    decreases |ws|
  {
    hide IsTypeKeyword, IsQualifier, IsTypeStart, IsWord;
    if IsQualifier(ws[0]) {
      KeywordIsWord(ws[0]);
      OneWordFits(ws[1..], w);
    } else {
      var u := [ws[0]] + Unqualified(ws[1..]);
      assert u == [w];
      assert u[0] == ws[0] && |u| == 1 + |Unqualified(ws[1..])|;
      KeywordsFit(ws[1..], true);
    }
  }

  lemma SpecifierFits(ws: seq<string>)
    requires IsSpecifier(Unqualified(ws))
    ensures WordsFit(ws, false)
  {
    hide IsTypeKeyword, IsTypeStart, IsWord, Unqualified, WordsFit;
    var u := Unqualified(ws);
    if forall k | 0 <= k < |u| :: IsTypeKeyword(u[k]) {
      KeywordsFit(ws, false);
    } else {
      assert u == [u[0]];
      OneWordFits(ws, u[0]);
    }
  }

  lemma {:induction false} QualifiedFits(before: seq<string>, w: string)
    requires AllQualifiers(before) && IsWord(w) && !IsQualifier(w) && IsTypeStart(w)
    ensures WordsFit(before + [w], false) && Unqualified(before + [w]) == [w]
    decreases |before|
  {
    hide IsQualifier, IsTypeStart, IsWord, IsTypeKeyword;
    var ws := before + [w];
    if before == [] {
      assert ws == [w] && ws[1..] == [];
    } else {
      assert ws[1..] == before[1..] + [w] && ws[0] == before[0];
      KeywordIsWord(ws[0]);
      QualifiedFits(before[1..], w);
    }
  }

  lemma LeadFits(b: BaseText)
    requires BaseOk(b)
    ensures WordsFit(LeadTokens(b), false)
    ensures Unqualified(LeadTokens(b)) == match b case Spelled(ws) => Unqualified(ws) case Tagged(_, k, _, _) => [k]
  {
    hide IsTypeStart, IsWord, Unqualified, WordsFit, IsSpecifier;
    match b
    case Spelled(ws) => SpecifierFits(ws);
    case Tagged(before, keyword, _, _) =>
      KnownWords();
      assert IsTypeStart(keyword) by {
        KeywordsStart();
      }
      QualifiedFits(before, keyword);
  }

  lemma KeywordsStart()
    ensures IsTypeStart("struct") && IsTypeStart("enum")
  {
  }

  lemma Front(a: seq<Token>, b: seq<Token>)
    requires a != []
    ensures a + b != [] && (a + b)[0] == a[0] && (a + b)[1..] == a[1..] + b
  {
  }

  /** The next word of a type. */
  lemma WordStep(s: string, i: nat, ws: seq<string>, rest: seq<Token>)
    requires At(s, i, ws + rest) && ws != [] && IsWord(ws[0])
    ensures ReadIdent(s, i).0 == Some(ws[0]) && At(s, ReadIdent(s, i).1, ws[1..] + rest)
  {
    hide At, ReadIdent, IsWord;
    Front(ws, rest);
    WordIsRead(s, i, ws + rest);
  }

  /** What ends the words: no word, or a name. */
  lemma EndStep(s: string, i: nat, rest: seq<Token>)
    requires At(s, i, rest) && EndsWords(rest)
    ensures ReadIdent(s, i).0.None? ==> At(s, ReadIdent(s, i).1, rest)
    ensures ReadIdent(s, i).0.Some? ==> IsName(ReadIdent(s, i).0.value)
  {
    hide At, ReadIdent, IsWord, StartsWord, IsTypeKeyword, IsQualifier;
    if rest != [] && StartsWord(rest[0]) {
      WordIsRead(s, i, rest);
    } else {
      NoWordIsRead(s, i, rest);
    }
  }

  /** Leading qualifiers are skipped, and the words behind them still stand there. */
  lemma {:induction false} LeadIsSkipped(s: string, i: nat, ws: seq<string>, rest: seq<Token>)
    returns (words: seq<string>)
    requires At(s, i, ws + rest) && WordsFit(ws, false) && EndsWords(rest)
    ensures At(s, SkipQualifiers(s, i), words + rest) && WordsFit(words, false)
    ensures Unqualified(words) == Unqualified(ws)
    decreases |ws|
  {
    hide ReadIdent, At, IsWord, IsTypeKeyword, IsTypeStart, IsQualifier, StartsWord;
    if ws == [] {
      assert ws + rest == rest;
      EndStep(s, i, rest);
    } else {
      WordStep(s, i, ws, rest);
    }
    if ws != [] && IsQualifier(ws[0]) {
      words := LeadIsSkipped(s, ReadIdent(s, i).1, ws[1..], rest);
    } else {
      words := ws;
    }
  }

  lemma {:induction false} WordsAreRead(s: string, i: nat, done: seq<string>, ws: seq<string>, rest: seq<Token>)
    requires At(s, i, ws + rest) && WordsFit(ws, done != []) && EndsWords(rest) && done + Unqualified(ws) != []
    ensures TypeTokens(s, i, done).0 == done + Unqualified(ws) && At(s, TypeTokens(s, i, done).1, rest)
    decreases |ws|
  {
    hide ReadIdent, At, IsWord, IsTypeKeyword, IsTypeStart, IsQualifier, StartsWord;
    if ws == [] {
      assert ws + rest == rest && done + Unqualified(ws) == done;
      EndStep(s, i, rest);
    } else if IsQualifier(ws[0]) {
      WordStep(s, i, ws, rest);
      WordsAreRead(s, ReadIdent(s, i).1, done, ws[1..], rest);
    } else {
      var done' := done + [ws[0]];
      WordStep(s, i, ws, rest);
      assert done' + Unqualified(ws[1..]) == done + Unqualified(ws);
      WordsAreRead(s, ReadIdent(s, i).1, done', ws[1..], rest);
    }
  }

  lemma BlankIsSkipped(s: string, i: nat, toks: seq<Token>)
    requires At(s, i, toks)
    ensures At(s, Blank(s, i), toks)
  {
    hide Blank, Stands;
    Next(s, i, toks);
  }

  lemma SpecifierIsNoTag(ws: seq<string>)
    requires IsSpecifier(ws)
    ensures ws != [] && ws != ["struct"] && ws != ["enum"]
  {
  }

  /** The words and the tag of a type; a qualifier behind the tag is left. */
  lemma BaseIsRead(s: string, i: nat, b: BaseText, rest: seq<Token>)
    requires BaseOk(b) && At(s, i, LeadTokens(b) + (TagTokens(b) + rest)) && (b.Spelled? ==> EndsWords(rest))
    ensures ParseBaseType(s, i).0 == Some(ReadBase(b)) && At(s, ParseBaseType(s, i).1, rest)
  {
    hide At, Blank, ReadIdent, SkipQualifiers, TypeTokens, WordsFit, IsWord, StartsWord, IsTypeKeyword, IsQualifier,
         Unqualified, ResolveTypeTokens, IsSpecifier;
    var behind := TagTokens(b) + rest;
    LeadFits(b);
    if b.Spelled? {
      assert behind == rest;
      SpecifierIsNoTag(Unqualified(b.words));
    } else {
      Front([b.tag], rest);
    }
    BlankIsSkipped(s, i, LeadTokens(b) + behind);
    var words := LeadIsSkipped(s, Blank(s, i), LeadTokens(b), behind);
    WordsAreRead(s, SkipQualifiers(s, Blank(s, i)), [], words, behind);
    assert [] + Unqualified(words) == Unqualified(words);
    if b.Tagged? {
      TagIsRead(s, TypeTokens(s, SkipQualifiers(s, Blank(s, i)), []).1, b.tag, rest);
    }
  }

  lemma TagIsRead(s: string, i: nat, tag: string, rest: seq<Token>)
    requires At(s, i, [tag] + rest) && IsWord(tag)
    ensures ReadIdent(s, i).0 == Some(tag) && At(s, ReadIdent(s, i).1, rest)
  {
    hide At, ReadIdent, IsWord;
    Front([tag], rest);
    WordIsRead(s, i, [tag] + rest);
    assert [tag][1..] + rest == rest;
  }

  lemma {:induction false} AfterStarIsRead(s: string, i: nat, qs: seq<string>, rest: seq<Token>)
    requires At(s, i, qs + rest) && AllQualifiers(qs) && EndsWords(rest)
    ensures At(s, AfterStar(s, i), rest)
    decreases |qs|
  {
    hide At, Blank, ReadIdent, IsWord, StartsWord, IsTypeKeyword, IsQualifier;
    BlankIsSkipped(s, i, qs + rest);
    if qs == [] {
      assert qs + rest == rest;
      EndStep(s, Blank(s, i), rest);
    } else {
      KeywordIsWord(qs[0]);
      WordStep(s, Blank(s, i), qs, rest);
      AfterStarIsRead(s, ReadIdent(s, Blank(s, i)).1, qs[1..], rest);
    }
  }

  lemma {:induction false} PointersFromInside(n: nat, ty: CType)
    ensures Pointers(n, Pointer(ty)) == Pointer(Pointers(n, ty))
  {
    if n > 0 {
      PointersFromInside(n - 1, ty);
    }
  }

  lemma SymbolIsPeeked(s: string, i: nat, c: char, toks: seq<Token>)
    requires At(s, i, toks)
    ensures PeekIs(s, Blank(s, i), c) <==> toks != [] && toks[0] != "" && toks[0][0] == c
    ensures toks != [] && toks[0] == [c] ==> At(s, Blank(s, i) + 1, toks[1..])
  {
    hide Blank, Stands;
    Next(s, i, toks);
  }

  lemma NoMoreStars(s: string, i: nat, ty: CType, rest: seq<Token>)
    requires At(s, i, rest) && EndsType(rest)
    ensures PointerSuffix(s, i, ty).0 == ty && At(s, PointerSuffix(s, i, ty).1, rest)
  {
    hide At, Blank, ReadIdent, IsWord, StartsWord, IsTypeKeyword, IsQualifier;
    InText(s, i, rest);
    var k := Blank(s, i);
    BlankIsSkipped(s, i, rest);
    EndStep(s, k, rest);
    var m := if ReadIdent(s, k).0.None? then ReadIdent(s, k).1 else k;
    BlankIsSkipped(s, m, rest);
    SymbolIsPeeked(s, m, '*', rest);
  }

  lemma StarIsRead(s: string, i: nat, ty: CType, qs: seq<string>, rest: seq<Token>)
    requires At(s, i, ["*"] + (qs + rest)) && AllQualifiers(qs) && EndsWords(rest)
    ensures exists j: nat :: j <= |s| && At(s, j, rest) && PointerSuffix(s, i, ty) == PointerSuffix(s, j, Pointer(ty))
  {
    hide At, Blank, ReadIdent, AfterStar, IsWord, IsTypeKeyword, IsQualifier;
    var toks := ["*"] + (qs + rest);
    InText(s, i, toks);
    var k := Blank(s, i);
    BlankIsSkipped(s, i, toks);
    assert toks[0] == "*" && toks[1..] == qs + rest;
    NoWordIsRead(s, k, toks);
    var m := ReadIdent(s, k).1;
    BlankIsSkipped(s, m, toks);
    SymbolIsPeeked(s, m, '*', toks);
    AfterStarIsRead(s, Blank(s, m) + 1, qs, rest);
    InText(s, AfterStar(s, Blank(s, m) + 1), rest);
  }

  lemma InText(s: string, i: nat, toks: seq<Token>)
    requires At(s, i, toks)
    ensures i <= |s|
  {
  }

  lemma StarParts(stars: seq<seq<string>>, rest: seq<Token>)
    ensures stars == [] ==> StarTokens(stars) + rest == rest
    ensures stars != [] ==> StarTokens(stars) + rest == ["*"] + (stars[0] + (StarTokens(stars[1..]) + rest))
  {
    if stars != [] {
      var more := StarTokens(stars[1..]);
      assert StarTokens(stars) == ["*"] + (stars[0] + more);
      assert ["*"] + (stars[0] + more) + rest == ["*"] + (stars[0] + (more + rest));
    } else {
      assert [] + rest == rest;
    }
  }

  lemma StarEndsWords(rest: seq<Token>)
    ensures EndsWords(["*"] + rest)
  {
    Front(["*"], rest);
    assert !StartsWord("*");
    hide IsName, StartsWord;
  }

  lemma StarsEnd(stars: seq<seq<string>>, rest: seq<Token>)
    requires EndsType(rest)
    ensures EndsWords(StarTokens(stars) + rest)
    ensures stars != [] ==> StarTokens(stars) + rest == ["*"] + (stars[0] + (StarTokens(stars[1..]) + rest))
    ensures stars == [] ==> StarTokens(stars) + rest == rest
  {
    StarParts(stars, rest);
    if stars != [] {
      StarEndsWords(stars[0] + (StarTokens(stars[1..]) + rest));
    }
    hide EndsWords, StarTokens;
  }

  lemma {:induction false} StarsAreRead(s: string, i: nat, stars: seq<seq<string>>, ty: CType, rest: seq<Token>)
    requires At(s, i, StarTokens(stars) + rest) && StarsOk(stars) && EndsType(rest)
    ensures PointerSuffix(s, i, ty).0 == Pointers(|stars|, ty) && At(s, PointerSuffix(s, i, ty).1, rest)
    decreases |stars|
  {
    hide At, Blank, PointerSuffix, StarTokens, AllQualifiers, EndsWords;
    StarsEnd(stars, rest);
    if stars == [] {
      NoMoreStars(s, i, ty, rest);
    } else {
      StarsEnd(stars[1..], rest);
      StarIsRead(s, i, ty, stars[0], StarTokens(stars[1..]) + rest);
      var j: nat :| j <= |s| && At(s, j, StarTokens(stars[1..]) + rest)
                    && PointerSuffix(s, i, ty) == PointerSuffix(s, j, Pointer(ty));
      StarsAreRead(s, j, stars[1..], Pointer(ty), rest);
      PointersFromInside(|stars| - 1, ty);
    }
  }

  /** A qualifier between the tag and the stars. */
  lemma BehindIsSkipped(s: string, i: nat, q: string, stars: seq<seq<string>>, ty: CType, rest: seq<Token>)
    requires At(s, i, [q] + (StarTokens(stars) + rest)) && IsQualifier(q) && StarsOk(stars) && EndsType(rest)
    ensures PointerSuffix(s, i, ty).0 == Pointers(|stars|, ty) && At(s, PointerSuffix(s, i, ty).1, rest)
  {
    hide At, Blank, ReadIdent, StarTokens, AllQualifiers, EndsWords, IsQualifier, AfterStar, IsName;
    var toks := StarTokens(stars) + rest;
    BlankIsSkipped(s, i, [q] + toks);
    KeywordIsWord(q);
    TagIsRead(s, Blank(s, i), q, toks);
    var j := ReadIdent(s, Blank(s, i)).1;
    var m := Blank(s, j);
    BlankIsSkipped(s, j, toks);
    StarsEnd(stars, rest);
    SymbolIsPeeked(s, j, '*', toks);
    if stars != [] {
      StarKeepsCursor(s, j, toks);
      assert PointerSuffix(s, i, ty) == PointerSuffix(s, m, ty);
      StarsAreRead(s, m, stars, ty, rest);
    }
  }

  lemma StarKeepsCursor(s: string, j: nat, toks: seq<Token>)
    requires At(s, j, toks) && toks != [] && toks[0] == "*"
    ensures var m := Blank(s, j); Blank(s, m) == m && ReadIdent(s, m) == (None, m)
  {
    hide Blank, ReadIdent, Stands;
    Next(s, j, toks);
    NextWord(s, Blank(s, j), toks);
  }

  lemma TypeParts(t: TypeText, rest: seq<Token>)
    ensures TypeTokensOf(t) + rest
         == LeadTokens(t.base) + (TagTokens(t.base) + (BehindTokens(t.base) + (StarTokens(t.stars) + rest)))
    ensures EndsType(rest) && t.base.Spelled? ==> EndsWords(BehindTokens(t.base) + (StarTokens(t.stars) + rest))
  {
    hide IsName, EndsWords;
    var stars := StarTokens(t.stars) + rest;
    if t.base.Spelled? && EndsType(rest) {
      StarsEnd(t.stars, rest);
      assert BehindTokens(t.base) + stars == stars;
    }
  }

  /** A type is read up to what ends it. */
  lemma TypeIsRead(s: string, i: nat, t: TypeText, rest: seq<Token>)
    requires TypeOk(t) && At(s, i, TypeTokensOf(t) + rest) && EndsType(rest)
    ensures ParseType(s, i).0 == Some(ReadType(t)) && At(s, ParseType(s, i).1, rest)
  {
    hide At, BaseOk, ReadBase, StarTokens, LeadTokens, TagTokens, StarsOk, ParseBaseType, PointerSuffix, EndsWords,
         EndsType, IsQualifier;
    var stars := StarTokens(t.stars) + rest;
    TypeParts(t, rest);
    BaseIsRead(s, i, t.base, BehindTokens(t.base) + stars);
    var j := ParseBaseType(s, i).1;
    BehindForm(t.base);
    if BehindTokens(t.base) == [] {
      assert BehindTokens(t.base) + stars == stars;
      StarsAreRead(s, j, t.stars, ReadBase(t.base), rest);
    } else {
      BehindIsSkipped(s, j, BehindTokens(t.base)[0], t.stars, ReadBase(t.base), rest);
    }
  }

  lemma BehindForm(b: BaseText)
    requires BaseOk(b)
    ensures BehindTokens(b) == [] || (BehindTokens(b) == [BehindTokens(b)[0]] && IsQualifier(BehindTokens(b)[0]))
  {
    hide IsSpecifier, IsName, IsQualifier;
  }

  // ----- brackets -----

  function BracketTokens(b: Option<Option<nat>>): seq<Token> {
    match b
    case None => []
    case Some(None) => ["[", "]"]
    case Some(Some(n)) => ["[", Decimal(n), "]"]
  }

  function BehindOpening(b: Option<nat>): seq<Token> {
    if b.Some? then [Decimal(b.value), "]"] else ["]"]
  }

  lemma {:induction false} WhileDigitsReads(s: string, i: nat, w: string)
    requires StartsWith(s, i, w) && forall k | 0 <= k < |w| :: IsDigit(w[k])
    requires i + |w| < |s| ==> !IsDigit(s[i + |w|])
    ensures WhileDigits(s, i) == i + |w|
    decreases |w|
  {
    if w != "" {
      CharAt(s, i, w, 0);
      assert w == [w[0]] + w[1..];
      SplitAt(s, i, [w[0]], w[1..]);
      WhileDigitsReads(s, i + 1, w[1..]);
    }
  }

  lemma DecimalIsWord(n: nat)
    ensures IsWord(Decimal(n)) && AllDigits(Decimal(n)) && NumberValue(Decimal(n), 10) == n
    ensures EndsInWord(Decimal(n))
  {
    hide Decimal, NumberValue;
    DecimalParses(n);
  }

  lemma SizeIsRead(s: string, i: nat, n: nat, rest: seq<Token>)
    requires At(s, i, [Decimal(n)] + rest)
    ensures ReadArraySize(s, i).0 == (if n < TWO_64 then Some(n) else None)
    ensures At(s, ReadArraySize(s, i).1, rest)
  {
    hide Blank, Decimal, NumberValue;
    var toks := [Decimal(n)] + rest;
    DecimalIsWord(n);
    Next(s, i, toks);
    assert toks[1..] == rest;
    WhileDigitsReads(s, Blank(s, i), Decimal(n));
  }

  lemma NoSizeIsRead(s: string, i: nat, rest: seq<Token>)
    requires At(s, i, ["]"] + rest)
    ensures ReadArraySize(s, i).0 == None && At(s, ReadArraySize(s, i).1, ["]"] + rest)
  {
    hide Blank, NumberValue;
    Next(s, i, ["]"] + rest);
  }

  /** The character that stands next is consumed. */
  lemma ExpectedIsRead(s: string, i: nat, c: char, rest: seq<Token>)
    requires At(s, i, [[c]] + rest)
    ensures i <= |s| && At(s, ExpectChar(s, i, c), rest)
  {
    hide Blank, Stands;
    var toks := [[c]] + rest;
    assert toks[0] == [c] && toks[1..] == rest;
    NextSymbol(s, i, c, toks);
  }

  /** What the parser keeps of a size. */
  function ReadSize(b: Option<nat>): Option<nat> {
    if b.Some? && b.value < TWO_64 then b else None
  }

  lemma BracketsClose(s: string, i: nat, b: Option<nat>, rest: seq<Token>)
    requires At(s, i, BehindOpening(b) + rest)
    ensures i <= |s| && ReadArraySize(s, i).0 == ReadSize(b)
    ensures At(s, ExpectChar(s, ReadArraySize(s, i).1, ']'), rest)
  {
    hide At, Blank, Decimal, ReadArraySize, ExpectChar;
    InText(s, i, BehindOpening(b) + rest);
    assert [[']']] == ["]"];
    if b.Some? {
      assert BehindOpening(b) + rest == [Decimal(b.value)] + (["]"] + rest);
      SizeIsRead(s, i, b.value, ["]"] + rest);
    } else {
      NoSizeIsRead(s, i, rest);
    }
    ExpectedIsRead(s, ReadArraySize(s, i).1, ']', rest);
  }

  function Shape(brackets: Option<Option<nat>>, ty: CType): CType {
    match brackets
    case None => ty
    case Some(size) => Array(ty, ReadSize(size))
  }

  lemma BracketParts(b: Option<Option<nat>>, rest: seq<Token>)
    ensures b.None? ==> BracketTokens(b) + rest == rest
    ensures b.Some? ==> BracketTokens(b) + rest == ["["] + (BehindOpening(b.value) + rest)
  {
    hide Decimal;
    if b.Some? {
      assert BracketTokens(b) == ["["] + BehindOpening(b.value);
    } else {
      assert [] + rest == rest;
    }
  }

  /** A trailing `[n]`, if there is one. */
  lemma BracketsAreRead(s: string, i: nat, b: Option<Option<nat>>, ty: CType, rest: seq<Token>)
    requires At(s, i, BracketTokens(b) + rest) && (rest != [] ==> rest[0] != "" && rest[0][0] != '[')
    ensures ArraySuffix(s, i, ty).0 == Shape(b, ty) && At(s, ArraySuffix(s, i, ty).1, rest)
  {
    hide At, Blank, BracketTokens, BehindOpening, ReadArraySize, ExpectChar;
    var toks := BracketTokens(b) + rest;
    InText(s, i, toks);
    BracketParts(b, rest);
    SymbolIsPeeked(s, i, '[', toks);
    if b.Some? {
      Front(["["], BehindOpening(b.value) + rest);
      assert toks[1..] == BehindOpening(b.value) + rest;
      BracketsClose(s, Blank(s, i) + 1, b.value, rest);
    } else {
      BlankIsSkipped(s, i, rest);
    }
  }

  // ----- parameters -----

  /** The name and the brackets are optional. */
  datatype ParamText = ParamText(ty: TypeText, name: Option<string>, brackets: Option<Option<nat>>)

  predicate ParamOk(q: ParamText) {
    TypeOk(q.ty) && (q.name.Some? ==> IsName(q.name.value))
  }

  predicate ParamsOk(ps: seq<ParamText>) {
    forall k | 0 <= k < |ps| :: ParamOk(ps[k])
  }

  function DeclaratorTokens(name: Option<string>, b: Option<Option<nat>>): seq<Token> {
    Maybe(name) + BracketTokens(b)
  }

  function ParamTokens(q: ParamText): seq<Token> {
    TypeTokensOf(q.ty) + DeclaratorTokens(q.name, q.brackets)
  }

  /** The parser keeps the type in front of the brackets. */
  function ReadParam(q: ParamText): CParam {
    CParam(q.name, ReadType(q.ty))
  }

  /** An array parameter is a pointer (section 6.7.6.3 of ISO/IEC 9899). */
  function ParamMeaning(q: ParamText): CParam
    requires ParamOk(q)
  {
    CParam(q.name, if q.brackets.Some? then Pointer(TypeMeaning(q.ty)) else TypeMeaning(q.ty))
  }

  /** What ends a parameter. */
  predicate EndsParam(rest: seq<Token>) {
    rest != [] && (rest[0] == "," || rest[0] == ")")
  }

  lemma NameParts(name: Option<string>, b: Option<Option<nat>>, rest: seq<Token>)
    ensures var brackets := BracketTokens(b) + rest;
            DeclaratorTokens(name, b) + rest == (if name.Some? then [name.value] + brackets else brackets)
  {
    hide Decimal;
    assert Maybe(name) + BracketTokens(b) + rest == Maybe(name) + (BracketTokens(b) + rest);
  }

  /** What stands behind the type of a parameter. */
  lemma DeclaratorOpens(name: Option<string>, b: Option<Option<nat>>, rest: seq<Token>)
    requires EndsParam(rest) && (name.Some? ==> IsName(name.value))
    ensures var toks := DeclaratorTokens(name, b) + rest;
            && EndsType(toks) && toks != [] && toks[0] != ""
            && (toks[0][0] == ',' || toks[0][0] == ')' <==> name == None && b == None) && toks[0][0] != '.'
  {
    hide Decimal, IsTypeKeyword, IsQualifier;
    NameParts(name, b, rest);
    BracketParts(b, rest);
    assert !StartsWord(",") && !StartsWord(")") && !StartsWord("[");
    var toks := DeclaratorTokens(name, b) + rest;
    if name.Some? {
      assert toks[0] == name.value && IsIdentChar(toks[0][0]);
    } else if b.Some? {
      assert toks[0] == "[";
    } else {
      assert toks == rest;
      assert toks[0] == "," || toks[0] == ")";
      assert !StartsWord(toks[0]);
      assert toks[0][0] != '*';
      assert EndsWords(toks);
    }
  }

  /** The optional name. */
  lemma MaybeNameIsRead(s: string, m: nat, name: Option<string>, b: Option<Option<nat>>, rest: seq<Token>)
    requires At(s, m, DeclaratorTokens(name, b) + rest) && EndsParam(rest) && (name.Some? ==> IsName(name.value))
    ensures ReadIdent(s, m).0 == name && At(s, ReadIdent(s, m).1, BracketTokens(b) + rest)
  {
    hide At, ReadIdent, Decimal, IsWord, IsTypeKeyword, IsQualifier;
    NameParts(name, b, rest);
    if name.Some? {
      TagIsRead(s, m, name.value, BracketTokens(b) + rest);
    } else {
      BracketParts(b, rest);
      assert !StartsWord(",") && !StartsWord(")") && !StartsWord("[");
      NoWordIsRead(s, m, BracketTokens(b) + rest);
    }
  }

  lemma SkippedBrackets(s: string, e: nat, b: Option<Option<nat>>, rest: seq<Token>)
    requires At(s, e, BracketTokens(b) + rest) && EndsParam(rest)
    ensures e <= |s|
    ensures var c := Blank(s, e);
            At(s, if PeekIs(s, c, '[') then ExpectChar(s, ReadArraySize(s, c + 1).1, ']') else c, rest)
  {
    hide At, Blank, BracketTokens, BehindOpening, ReadArraySize, ExpectChar;
    var toks := BracketTokens(b) + rest;
    InText(s, e, toks);
    BracketParts(b, rest);
    SymbolIsPeeked(s, e, '[', toks);
    if b.Some? {
      Front(["["], BehindOpening(b.value) + rest);
      assert toks[1..] == BehindOpening(b.value) + rest;
      BracketsClose(s, Blank(s, e) + 1, b.value, rest);
    } else {
      BlankIsSkipped(s, e, rest);
    }
  }

  lemma TypeOpens(t: TypeText)
    requires TypeOk(t)
    ensures TypeTokensOf(t) != [] && IsWord(TypeTokensOf(t)[0])
  {
    hide IsWord, IsTypeKeyword, IsTypeStart, IsQualifier, IsSpecifier, StarTokens;
    LeadFits(t.base);
    SpecifierNotEmpty(t.base);
    Front(LeadTokens(t.base), TagTokens(t.base) + (BehindTokens(t.base) + StarTokens(t.stars)));
  }

  lemma SpecifierNotEmpty(b: BaseText)
    requires BaseOk(b)
    ensures LeadTokens(b) != []
  {
  }

  /** Behind the type: the name and brackets if any, and where the comma or parenthesis stands. */
  lemma ParamRest(s: string, j: nat, name: Option<string>, b: Option<Option<nat>>, rest: seq<Token>)
    requires At(s, j, DeclaratorTokens(name, b) + rest) && EndsParam(rest) && (name.Some? ==> IsName(name.value))
    ensures j <= |s|
    ensures var m := Blank(s, j); var (n, e) := ReadIdent(s, m); var c := Blank(s, e);
            && (PeekIs(s, m, ',') || PeekIs(s, m, ')') || PeekIs(s, m, '.') <==> name == None && b == None)
            && (name == None && b == None ==> At(s, m, rest)) && n == name
            && At(s, if PeekIs(s, c, '[') then ExpectChar(s, ReadArraySize(s, c + 1).1, ']') else c, rest)
  {
    hide At, Blank, ReadIdent, BracketTokens, ReadArraySize, ExpectChar, DeclaratorTokens, IsName, EndsType;
    var toks := DeclaratorTokens(name, b) + rest;
    InText(s, j, toks);
    DeclaratorOpens(name, b, rest);
    SymbolIsPeeked(s, j, ',', toks);
    SymbolIsPeeked(s, j, ')', toks);
    SymbolIsPeeked(s, j, '.', toks);
    BlankIsSkipped(s, j, toks);
    NameParts(name, b, rest);
    BracketParts(b, rest);
    MaybeNameIsRead(s, Blank(s, j), name, b, rest);
    SkippedBrackets(s, ReadIdent(s, Blank(s, j)).1, b, rest);
  }

  /** What is left to read behind a parameter: the comma is consumed. */
  function Behind(rest: seq<Token>): seq<Token>
    requires rest != []
  {
    if rest[0] == "," then rest[1..] else rest
  }

  lemma CommaIsSkipped(s: string, n: nat, rest: seq<Token>)
    requires At(s, n, rest) && EndsParam(rest)
    ensures n <= |s| && var e := Blank(s, n); At(s, if PeekIs(s, e, ',') then e + 1 else e, Behind(rest))
  {
    hide At, Blank;
    InText(s, n, rest);
    SymbolIsPeeked(s, n, ',', rest);
    BlankIsSkipped(s, n, rest);
  }

  lemma ParamIsRead(s: string, k: nat, q: ParamText, done: seq<CParam>, rest: seq<Token>)
    requires ParamOk(q) && At(s, k, ParamTokens(q) + rest) && EndsParam(rest)
    ensures k <= |s| && ParamAt(s, k, done).0 == done + [ReadParam(q)] && k < ParamAt(s, k, done).1
    ensures At(s, ParamAt(s, k, done).1, Behind(rest))
  {
    hide At, Blank, ReadIdent, ParseType, ReadType, ReadArraySize, ExpectChar, TypeOk, TypeTokensOf, DeclaratorTokens,
         IsName, EndsType, EndsParam, IsWord, Behind;
    var tail := DeclaratorTokens(q.name, q.brackets) + rest;
    var toks := TypeTokensOf(q.ty) + tail;
    assert ParamTokens(q) + rest == toks;
    InText(s, k, toks);
    TypeOpens(q.ty);
    Front(TypeTokensOf(q.ty), tail);
    WordIsRead(s, k, toks);
    DeclaratorOpens(q.name, q.brackets, rest);
    TypeIsRead(s, k, q.ty, tail);
    var j := ParseType(s, k).1;
    ParamRest(s, j, q.name, q.brackets, rest);
    var m := Blank(s, j);
    var c := Blank(s, ReadIdent(s, m).1);
    if q.name == None && q.brackets == None {
      CommaIsSkipped(s, m, rest);
    } else {
      CommaIsSkipped(s, if PeekIs(s, c, '[') then ExpectChar(s, ReadArraySize(s, c + 1).1, ']') else c, rest);
    }
  }

  // ----- parameter lists -----

  function ListTokens(ps: seq<ParamText>, variadic: bool): seq<Token> {
    if ps == [] then (if variadic then ["..."] else [])
    else if |ps| == 1 && !variadic then ParamTokens(ps[0])
    else ParamTokens(ps[0]) + ([","] + ListTokens(ps[1..], variadic))
  }

  /** The one word `void`. */
  predicate PlainVoid(q: ParamText) {
    q == ParamText(TypeText(Spelled(["void"]), []), None, None)
  }

  /** It closes the list it stands at the end of. */
  predicate EndsInVoid(ps: seq<ParamText>, variadic: bool) {
    !variadic && ps != [] && PlainVoid(ps[|ps| - 1])
  }

  function Kept(ps: seq<ParamText>, variadic: bool): seq<ParamText> {
    if EndsInVoid(ps, variadic) then ps[..|ps| - 1] else ps
  }

  function ReadParams(ps: seq<ParamText>): seq<CParam> {
    seq(|ps|, k requires 0 <= k < |ps| => ReadParam(ps[k]))
  }

  /** Tokens inside a parameter. */
  predicate Inner(t: Token) {
    IsWord(t) || t == "*" || t == "[" || t == "]"
  }

  predicate AllInner(toks: seq<Token>) {
    forall k | 0 <= k < |toks| :: Inner(toks[k])
  }

  lemma BothInner(a: seq<Token>, b: seq<Token>)
    requires AllInner(a) && AllInner(b)
    ensures AllInner(a + b)
  {
    hide Inner;
  }

  lemma QualifiersAreInner(qs: seq<string>)
    requires AllQualifiers(qs)
    ensures AllInner(qs)
  {
    forall k | 0 <= k < |qs| ensures Inner(qs[k]) {
      KeywordIsWord(qs[k]);
    }
    hide *;
  }

  lemma {:induction false} FittingWordsAreInner(ws: seq<string>, started: bool)
    requires WordsFit(ws, started)
    ensures AllInner(ws)
    decreases |ws|
  {
    hide IsWord, IsTypeKeyword, IsTypeStart, IsQualifier;
    if ws != [] {
      FittingWordsAreInner(ws[1..], started || !IsQualifier(ws[0]));
      assert ws == [ws[0]] + ws[1..];
      BothInner([ws[0]], ws[1..]);
    }
  }

  lemma {:induction false} StarsAreInner(stars: seq<seq<string>>)
    requires StarsOk(stars)
    ensures AllInner(StarTokens(stars))
    decreases |stars|
  {
    hide IsWord, AllQualifiers;
    if stars != [] {
      QualifiersAreInner(stars[0]);
      StarsAreInner(stars[1..]);
      BothInner(stars[0], StarTokens(stars[1..]));
      BothInner(["*"], stars[0] + StarTokens(stars[1..]));
    }
  }

  lemma TypeIsInner(t: TypeText)
    requires TypeOk(t)
    ensures AllInner(TypeTokensOf(t))
  {
    hide IsWord, AllInner, IsTypeKeyword, IsQualifier, IsSpecifier, WordsFit, StarTokens, LeadTokens;
    LeadFits(t.base);
    FittingWordsAreInner(LeadTokens(t.base), false);
    StarsAreInner(t.stars);
    TagIsInner(t.base);
    BothInner(BehindTokens(t.base), StarTokens(t.stars));
    BothInner(TagTokens(t.base), BehindTokens(t.base) + StarTokens(t.stars));
    BothInner(LeadTokens(t.base), TagTokens(t.base) + (BehindTokens(t.base) + StarTokens(t.stars)));
  }

  lemma TagIsInner(b: BaseText)
    requires BaseOk(b)
    ensures AllInner(TagTokens(b)) && AllInner(BehindTokens(b))
  {
    if b.Tagged? && b.behind.Some? {
      KeywordIsWord(b.behind.value);
    }
    hide IsWord, IsTypeKeyword, IsQualifier, IsSpecifier;
  }

  lemma BracketsAreInner(b: Option<Option<nat>>)
    ensures AllInner(BracketTokens(b))
  {
    if b.Some? && b.value.Some? {
      DecimalIsWord(b.value.value);
    }
    hide Decimal, IsWord;
  }

  lemma DeclaratorIsInner(name: Option<string>, b: Option<Option<nat>>)
    requires name.Some? ==> IsName(name.value)
    ensures AllInner(DeclaratorTokens(name, b))
  {
    hide BracketTokens, IsWord, IsTypeKeyword, IsQualifier;
    BracketsAreInner(b);
    assert AllInner(Maybe(name));
    BothInner(Maybe(name), BracketTokens(b));
  }

  lemma ParamIsInner(q: ParamText)
    requires ParamOk(q)
    ensures AllInner(ParamTokens(q))
  {
    hide AllInner, TypeTokensOf, DeclaratorTokens, IsName;
    TypeIsInner(q.ty);
    DeclaratorIsInner(q.name, q.brackets);
    BothInner(TypeTokensOf(q.ty), DeclaratorTokens(q.name, q.brackets));
  }

  lemma LoneTypeWord(t: TypeText)
    requires TypeOk(t) && TypeTokensOf(t) == ["void"]
    ensures t == TypeText(Spelled(["void"]), [])
  {
    hide IsSpecifier, IsTypeKeyword, IsName, IsQualifier, StarTokens;
    SpecifierNotEmpty(t.base);
    NoStarTokens(t.stars);
    assert |StarTokens(t.stars)| == 0;
  }

  lemma NoStarTokens(stars: seq<seq<string>>)
    ensures StarTokens(stars) == [] <==> stars == []
  {
  }

  /** Only the plain `void` is one token. */
  lemma LoneVoid(q: ParamText)
    requires ParamOk(q)
    ensures PlainVoid(q) <==> ParamTokens(q) == ["void"]
  {
    hide TypeOk, IsName, Decimal;
    if PlainVoid(q) {
      assert StarTokens([]) == [];
      assert ParamTokens(q) == ["void"];
    }
    if ParamTokens(q) == ["void"] {
      TypeOpens(q.ty);
      hide TypeTokensOf;
      assert |DeclaratorTokens(q.name, q.brackets)| == 0;
      assert TypeTokensOf(q.ty) == ["void"];
      LoneTypeWord(q.ty);
    }
  }

  lemma ParamOpens(q: ParamText, rest: seq<Token>)
    requires ParamOk(q)
    ensures var toks := ParamTokens(q) + rest;
            ParamTokens(q) != [] && toks != [] && toks[0] == ParamTokens(q)[0] && IsWord(toks[0])
            && toks[1..] == ParamTokens(q)[1..] + rest
  {
    hide TypeTokensOf, DeclaratorTokens, TypeOk, IsName, IsWord;
    TypeOpens(q.ty);
    Front(TypeTokensOf(q.ty), DeclaratorTokens(q.name, q.brackets));
    Front(ParamTokens(q), rest);
  }

  /** Behind the first token of a parameter a parenthesis stands only if it ends there. */
  lemma ParenBehindFirst(q: ParamText, rest: seq<Token>)
    requires ParamOk(q) && EndsParam(rest)
    ensures var toks := (ParamTokens(q) + rest)[1..];
            toks != [] && (toks[0] != "" && toks[0][0] == ')' <==> |ParamTokens(q)| == 1 && rest[0] == ")")
            && (|ParamTokens(q)| == 1 ==> toks == rest)
  {
    hide ParamTokens, ParamOk;
    ParamOpens(q, rest);
    ParamIsInner(q);
    if |ParamTokens(q)| > 1 {
      assert Inner(ParamTokens(q)[1]);
    }
  }

  /** `void` closes the list exactly if it is the whole parameter and the parenthesis follows. */
  lemma VoidCloses(s: string, k: nat, q: ParamText, rest: seq<Token>)
    requires ParamOk(q) && At(s, k, ParamTokens(q) + rest) && EndsParam(rest)
    ensures k <= |s| && (VoidClose(s, k).Some? <==> PlainVoid(q) && rest[0] == ")")
    ensures VoidClose(s, k).Some? ==> At(s, VoidClose(s, k).value, rest[1..])
  {
    hide At, Blank, ReadIdent, ParamTokens, ParamOk, PlainVoid, IsWord;
    var toks := ParamTokens(q) + rest;
    InText(s, k, toks);
    ParamOpens(q, rest);
    WordIsRead(s, k, toks);
    ParenBehindFirst(q, rest);
    LoneVoid(q);
    SymbolIsPeeked(s, ReadIdent(s, k).1, ')', toks[1..]);
    if |ParamTokens(q)| == 1 {
      assert ParamTokens(q) == [toks[0]];
    }
  }

  /** What stands behind the first parameter. */
  function ListTail(ps: seq<ParamText>, variadic: bool, rest: seq<Token>): seq<Token>
    requires ps != []
  {
    if |ps| == 1 && !variadic then [")"] + rest else [","] + (ListTokens(ps[1..], variadic) + ([")"] + rest))
  }

  lemma ListParts(ps: seq<ParamText>, variadic: bool, rest: seq<Token>)
    requires ps != []
    ensures ListTokens(ps, variadic) + ([")"] + rest) == ParamTokens(ps[0]) + ListTail(ps, variadic, rest)
    ensures EndsParam(ListTail(ps, variadic, rest)) && ListTail(ps, variadic, rest) != []
    ensures Behind(ListTail(ps, variadic, rest)) == ListTokens(ps[1..], variadic) + ([")"] + rest)
    ensures ListTail(ps, variadic, rest)[0] == ")" <==> |ps| == 1 && !variadic
  {
    hide ParamTokens;
    if |ps| == 1 && !variadic {
      assert ps[1..] == [] && [] + ([")"] + rest) == [")"] + rest;
    }
  }

  lemma KeptParts(ps: seq<ParamText>, variadic: bool, done: seq<CParam>)
    requires ps != [] && !(PlainVoid(ps[0]) && |ps| == 1 && !variadic)
    ensures done + [ReadParam(ps[0])] + ReadParams(Kept(ps[1..], variadic)) == done + ReadParams(Kept(ps, variadic))
  {
    hide PlainVoid, ReadParam;
    var more := ps[1..];
    assert Kept(ps, variadic) == [ps[0]] + Kept(more, variadic) by {
      if more != [] {
        assert more[|more| - 1] == ps[|ps| - 1];
        assert ps[..|ps| - 1] == [ps[0]] + more[..|more| - 1];
      }
      assert ps == [ps[0]] + more;
    }
    assert ReadParams([ps[0]] + Kept(more, variadic)) == [ReadParam(ps[0])] + ReadParams(Kept(more, variadic));
  }

  /** A list of parameters is read up to its parenthesis. */
  predicate ListRead(s: string, r: Params, ps: seq<ParamText>, variadic: bool, done: seq<CParam>, errors: seq<string>,
                     rest: seq<Token>)
  {
    && r.params == done + ReadParams(Kept(ps, variadic)) && r.variadic == variadic && r.errors == errors
    && At(s, r.pos, rest)
  }

  lemma NoParams(s: string, i: nat, variadic: bool, done: seq<CParam>, errors: seq<string>, rest: seq<Token>)
    requires At(s, i, ListTokens([], variadic) + ([")"] + rest))
    ensures i <= |s| && ListRead(s, FunctionParams(s, i, done, errors), [], variadic, done, errors, rest)
  {
    hide At, Blank;
    assert done + ReadParams(Kept([], variadic)) == done;
    var close := [")"] + rest;
    assert close[0] == ")" && close[1..] == rest;
    var toks := ListTokens([], variadic) + close;
    InText(s, i, toks);
    SymbolIsPeeked(s, i, ')', toks);
    if variadic {
      assert toks[0] == "..." && toks[1..] == close;
      DotsStand(s, i, close);
      SymbolIsPeeked(s, Blank(s, i) + 3, ')', close);
    } else {
      assert toks == close;
    }
  }

  lemma DotsStand(s: string, i: nat, rest: seq<Token>)
    requires At(s, i, ["..."] + rest)
    ensures i <= |s| && var k := Blank(s, i); k < |s| && StartsWith(s, k, "...") && At(s, k + 3, rest)
  {
    hide Blank, Stands;
    var toks := ["..."] + rest;
    Next(s, i, toks);
    assert toks[0] == "..." && toks[1..] == rest;
  }

  lemma NoDotsStand(s: string, i: nat, toks: seq<Token>)
    requires At(s, i, toks) && toks != [] && IsWord(toks[0])
    ensures i <= |s| && var k := Blank(s, i); k < |s| && !StartsWith(s, k, "...") && !PeekIs(s, k, ')')
  {
    hide Blank, Stands, StartsWith;
    Next(s, i, toks);
    assert IsIdentChar(toks[0][0]);
    NotThere(s, Blank(s, i), "...", 0);
  }

  /** One turn of the parameter loop. */
  lemma ParamStep(s: string, i: nat, q: ParamText, done: seq<CParam>, errors: seq<string>, rest: seq<Token>)
    requires ParamOk(q) && At(s, i, ParamTokens(q) + rest) && EndsParam(rest)
    ensures i <= |s|
    ensures PlainVoid(q) && rest[0] == ")" ==>
              var r := FunctionParams(s, i, done, errors);
              r == Params(done, false, r.pos, errors) && At(s, r.pos, rest[1..])
    ensures !(PlainVoid(q) && rest[0] == ")") ==>
              exists e: nat :: e <= |s| && At(s, e, Behind(rest))
                && FunctionParams(s, i, done, errors) == FunctionParams(s, e, done + [ReadParam(q)], errors)
  {
    hide At, Blank, VoidClose, ParamAt, ParamTokens, ParamOk, PlainVoid, IsWord, StartsWith, ReadParam, Behind,
         EndsParam;
    var toks := ParamTokens(q) + rest;
    InText(s, i, toks);
    var k := Blank(s, i);
    ParamOpens(q, rest);
    NoDotsStand(s, i, toks);
    BlankIsSkipped(s, i, toks);
    VoidCloses(s, k, q, rest);
    ParamIsRead(s, k, q, done, rest);
  }

  lemma {:induction false} ListIsRead(s: string, i: nat, ps: seq<ParamText>, variadic: bool, done: seq<CParam>,
                                      errors: seq<string>, rest: seq<Token>)
    requires ParamsOk(ps) && At(s, i, ListTokens(ps, variadic) + ([")"] + rest))
    ensures i <= |s| && ListRead(s, FunctionParams(s, i, done, errors), ps, variadic, done, errors, rest)
    decreases |ps|
  {
    hide At, FunctionParams, ListTokens, ListTail, ParamTokens, ParamOk, PlainVoid, ReadParam, Behind, EndsParam,
         ReadParams;
    if ps == [] {
      NoParams(s, i, variadic, done, errors, rest);
    } else {
      ListParts(ps, variadic, rest);
      var tail := ListTail(ps, variadic, rest);
      ParamStep(s, i, ps[0], done, errors, tail);
      if PlainVoid(ps[0]) && |ps| == 1 && !variadic {
        VoidIsDropped(ps, done);
        TailOfOne(ps, rest);
      } else {
        var e: nat :| e <= |s| && At(s, e, Behind(tail))
          && FunctionParams(s, i, done, errors) == FunctionParams(s, e, done + [ReadParam(ps[0])], errors);
        ListIsRead(s, e, ps[1..], variadic, done + [ReadParam(ps[0])], errors, rest);
        KeptParts(ps, variadic, done);
      }
    }
  }

  lemma VoidIsDropped(ps: seq<ParamText>, done: seq<CParam>)
    requires |ps| == 1 && PlainVoid(ps[0])
    ensures done + ReadParams(Kept(ps, false)) == done
  {
    hide PlainVoid;
  }

  lemma TailOfOne(ps: seq<ParamText>, rest: seq<Token>)
    requires |ps| == 1
    ensures ListTail(ps, false, rest)[1..] == rest
  {
    assert ([")"] + rest)[1..] == rest;
  }

  // ----- attributes -----

  /** Text with parentheses in pairs. */
  datatype Nest = End | Plain(c: char, next: Nest) | Group(inner: Nest, next: Nest)
  {
    predicate Valid() {
      match this
      case End => true
      case Plain(c, next) => c != '(' && c != ')' && next.Valid()
      case Group(inner, next) => inner.Valid() && next.Valid()
    }

    function Text(): string {
      match this
      case End => ""
      case Plain(c, next) => [c] + next.Text()
      case Group(inner, next) => "(" + (inner.Text() + (")" + next.Text()))
    }
  }

  lemma PlainParts(s: string, i: nat, c: char, next: string)
    requires StartsWith(s, i, [c] + next)
    ensures i < |s| && s[i] == c && StartsWith(s, i + 1, next)
  {
    SplitAt(s, i, [c], next);
    CharAt(s, i, [c], 0);
  }

  lemma GroupParts(s: string, i: nat, inner: string, next: string)
    requires StartsWith(s, i, "(" + (inner + (")" + next)))
    ensures var j := i + 1 + |inner|;
            && i < |s| && s[i] == '(' && StartsWith(s, i + 1, inner) && j < |s| && s[j] == ')'
            && StartsWith(s, j + 1, next)
  {
    var j := i + 1 + |inner|;
    SplitAt(s, i, "(", inner + (")" + next));
    CharAt(s, i, "(", 0);
    SplitAt(s, i + 1, inner, ")" + next);
    SplitAt(s, j, ")", next);
    CharAt(s, j, ")", 0);
  }

  lemma {:induction false} NestIsSkipped(s: string, i: nat, n: Nest, depth: int)
    requires n.Valid() && StartsWith(s, i, n.Text()) && depth > 0
    ensures SkipGroup(s, i, depth) == SkipGroup(s, i + |n.Text()|, depth)
    decreases n
  {
    hide StartsWith;
    match n
    case End =>
    case Plain(c, next) =>
      PlainParts(s, i, c, next.Text());
      NestIsSkipped(s, i + 1, next, depth);
    case Group(inner, next) =>
      var j := i + 1 + |inner.Text()|;
      GroupParts(s, i, inner.Text(), next.Text());
      NestIsSkipped(s, i + 1, inner, depth + 1);
      NestIsSkipped(s, j + 1, next, depth);
      assert SkipGroup(s, j, depth + 1) == SkipGroup(s, j + 1, depth);
  }

  function GroupText(n: Nest): string {
    "(" + (n.Text() + ")")
  }

  lemma GroupIsSkipped(s: string, i: nat, n: Nest)
    requires n.Valid() && StartsWith(s, i, GroupText(n))
    ensures SkipGroup(s, i, 0) == i + |GroupText(n)|
  {
    hide Nest.Valid, Nest.Text;
    var j := i + 1 + |n.Text()|;
    SplitAt(s, i, "(", n.Text() + ")");
    CharAt(s, i, "(", 0);
    SplitAt(s, i + 1, n.Text(), ")");
    CharAt(s, j, ")", 0);
    NestIsSkipped(s, i + 1, n, 1);
  }

  function AttributeTokens(a: Option<Nest>): seq<Token> {
    if a.Some? then ["__attribute__", GroupText(a.value)] else []
  }

  lemma AttributesAreSkipped(s: string, i: nat, a: Option<Nest>, rest: seq<Token>)
    requires At(s, i, AttributeTokens(a) + ([";"] + rest)) && (a.Some? ==> a.value.Valid())
    ensures i <= |s| && At(s, SkipAttributes(s, i), [";"] + rest)
  {
    hide Blank, Stands, StartsWith, Nest.Text, Nest.Valid, GroupText;
    var toks := AttributeTokens(a) + ([";"] + rest);
    Next(s, i, toks);
    var k := Blank(s, i);
    if a.Some? {
      var group := [GroupText(a.value)] + ([";"] + rest);
      assert toks[0] == "__attribute__" && toks[1..] == group;
      assert group[0] == GroupText(a.value) && group[1..] == [";"] + rest;
      Next(s, k + 13, group);
      GroupOpens(a.value);
      GroupIsSkipped(s, Blank(s, k + 13), a.value);
    } else {
      assert toks == [";"] + rest;
      NotThere(s, k, "__attribute__", 0);
    }
  }

  lemma GroupOpens(n: Nest)
    ensures TokenOk(GroupText(n)) && GroupText(n)[0] == '(' && !EndsInWord(GroupText(n)) && !StartsWord(GroupText(n))
  {
    hide Nest.Text;
  }

  // ----- prototypes -----

  datatype Proto = Proto(name: string, params: seq<ParamText>, ret: TypeText, variadic: bool, attribute: Option<Nest>)

  predicate ProtoOk(p: Proto) {
    IsName(p.name) && ParamsOk(p.params) && TypeOk(p.ret) && (p.attribute.Some? ==> p.attribute.value.Valid())
  }

  function ProtoTail(p: Proto): seq<Token> {
    AttributeTokens(p.attribute) + [";"]
  }

  function ProtoTokens(p: Proto): seq<Token> {
    TypeTokensOf(p.ret) + ([p.name] + (["("] + (ListTokens(p.params, p.variadic) + ([")"] + ProtoTail(p)))))
  }

  /** What the parser makes of it: a closing `void` is dropped. */
  function ReadProto(p: Proto): CItem {
    Function(p.name, ReadParams(Kept(p.params, p.variadic)), ReadType(p.ret), p.variadic)
  }

  lemma ProtoParts(p: Proto, rest: seq<Token>)
    ensures ProtoTokens(p) + rest
         == TypeTokensOf(p.ret) + ([p.name] + (["("] + (ListTokens(p.params, p.variadic)
            + ([")"] + (AttributeTokens(p.attribute) + ([";"] + rest))))))
  {
    hide TypeTokensOf, ListTokens, AttributeTokens;
    var close := [")"] + ProtoTail(p);
    assert ProtoTail(p) + rest == AttributeTokens(p.attribute) + ([";"] + rest);
    assert close + rest == [")"] + (AttributeTokens(p.attribute) + ([";"] + rest));
    assert ListTokens(p.params, p.variadic) + close + rest == ListTokens(p.params, p.variadic) + (close + rest);
  }

  lemma NameEndsType(name: string, rest: seq<Token>)
    requires IsName(name)
    ensures EndsType([name] + rest)
  {
    hide IsTypeKeyword, IsQualifier;
    Front([name], rest);
    assert IsIdentChar(name[0]);
  }

  lemma PrototypeIsRead(s: string, i: nat, p: Proto, errors: seq<string>, rest: seq<Token>)
    requires ProtoOk(p) && At(s, i, ProtoTokens(p) + rest)
    ensures i <= |s|
    ensures var r := FunctionAt(s, i, errors);
            r.Some? && r.value.0 == ReadProto(p) && r.value.2 == errors && At(s, r.value.1, rest)
  {
    hide At, Blank, ParseType, ReadIdent, FunctionParams, SkipAttributes, ExpectChar, TypeTokensOf, ListTokens,
         AttributeTokens, IsWord, IsTypeKeyword, IsQualifier, EndsType, ReadParams, Kept, ReadType, ParamsOk, TypeOk,
         ProtoTokens;
    var tail := AttributeTokens(p.attribute) + ([";"] + rest);
    var list := ListTokens(p.params, p.variadic) + ([")"] + tail);
    ProtoParts(p, rest);
    InText(s, i, ProtoTokens(p) + rest);
    NameEndsType(p.name, ["("] + list);
    TypeIsRead(s, i, p.ret, [p.name] + (["("] + list));
    var j := ParseType(s, i).1;
    BlankIsSkipped(s, j, [p.name] + (["("] + list));
    TagIsRead(s, Blank(s, j), p.name, ["("] + list);
    var m := ReadIdent(s, Blank(s, j)).1;
    Front(["("], list);
    assert (["("] + list)[1..] == list;
    SymbolIsPeeked(s, m, '(', ["("] + list);
    ListIsRead(s, Blank(s, m) + 1, p.params, p.variadic, [], errors, tail);
    var f := FunctionParams(s, Blank(s, m) + 1, [], errors);
    assert [] + ReadParams(Kept(p.params, p.variadic)) == ReadParams(Kept(p.params, p.variadic));
    BlankIsSkipped(s, f.pos, tail);
    AttributesAreSkipped(s, Blank(s, f.pos), p.attribute, rest);
    ExpectedIsRead(s, SkipAttributes(s, Blank(s, f.pos)), ';', rest);
  }

  // ----- what a prototype says -----

  /** A list of one plain `void` is empty. */
  function ParamsMeaning(ps: seq<ParamText>, variadic: bool): seq<CParam>
    requires ParamsOk(ps)
  {
    if EndsInVoid(ps, variadic) && |ps| == 1 then [] else seq(|ps|, k requires 0 <= k < |ps| => ParamMeaning(ps[k]))
  }

  function ProtoMeaning(p: Proto): CItem
    requires ProtoOk(p)
  {
    Function(p.name, ParamsMeaning(p.params, p.variadic), TypeMeaning(p.ret), p.variadic)
  }

  predicate ParamIsUnderstood(q: ParamText)
    requires ParamOk(q)
  {
    TypeIsUnderstood(q.ty) && q.brackets == None
  }

  /** Types in order, no array parameters, and no `void` at the end of a longer list. */
  predicate ProtoIsUnderstood(p: Proto)
    requires ProtoOk(p)
  {
    && TypeIsUnderstood(p.ret) && (forall k | 0 <= k < |p.params| :: ParamIsUnderstood(p.params[k]))
    && (EndsInVoid(p.params, p.variadic) ==> |p.params| == 1)
  }

  lemma BaseIsNoPointer(b: BaseText)
    ensures !ReadBase(b).Pointer? && !ReadBase(b).Array?
  {
    hide Unqualified, Join;
  }

  lemma ParamIsReadExactly(q: ParamText)
    requires ParamOk(q)
    ensures ReadParam(q) == ParamMeaning(q) <==> ParamIsUnderstood(q)
  {
    hide ReadBase, BaseMeaning, BaseOk, StarsOk, IsName;
    TypeIsUnderstoodExactly(q.ty);
    if q.brackets.Some? {
      BaseIsNoPointer(q.ty.base);
      PointersFromInside(|q.ty.stars|, BaseMeaning(q.ty.base));
      SamePointers(|q.ty.stars|, ReadBase(q.ty.base), Pointer(BaseMeaning(q.ty.base)));
    }
  }

  lemma LoneVoidIsUnderstood(q: ParamText)
    requires PlainVoid(q)
    ensures ParamOk(q) && ParamIsUnderstood(q)
  {
    assert Unqualified([]) == [];
    assert ["void"][1..] == [];
    assert Unqualified(["void"]) == ["void"];
  }

  lemma ParamsAreReadExactly(ps: seq<ParamText>, variadic: bool)
    requires ParamsOk(ps)
    ensures ReadParams(Kept(ps, variadic)) == ParamsMeaning(ps, variadic) <==>
              (forall k | 0 <= k < |ps| :: ParamIsUnderstood(ps[k])) && (EndsInVoid(ps, variadic) ==> |ps| == 1)
  {
    hide ReadParam, ParamMeaning, ParamIsUnderstood, ParamOk, PlainVoid;
    if EndsInVoid(ps, variadic) {
      assert |Kept(ps, variadic)| == |ps| - 1;
      if |ps| == 1 {
        LoneVoidIsUnderstood(ps[0]);
      }
    } else {
      forall k | 0 <= k < |ps|
        ensures ReadParams(ps)[k] == ParamsMeaning(ps, variadic)[k] <==> ParamIsUnderstood(ps[k])
      {
        ParamIsReadExactly(ps[k]);
      }
    }
  }

  /** A prototype is read as C means it exactly if it is understood. */
  lemma PrototypeIsReadExactly(p: Proto)
    requires ProtoOk(p)
    ensures ReadProto(p) == ProtoMeaning(p) <==> ProtoIsUnderstood(p)
  {
    hide ReadType, TypeMeaning, TypeOk, ParamsOk, ReadParams, ParamsMeaning, ParamIsUnderstood, TypeIsUnderstood, Kept,
         EndsInVoid;
    TypeIsUnderstoodExactly(p.ret);
    ParamsAreReadExactly(p.params, p.variadic);
  }
}
