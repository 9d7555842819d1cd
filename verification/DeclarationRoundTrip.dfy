/** C headers: prototypes, structs, enums, typedefs of all three kinds, forward declarations,
    preprocessor lines and `extern` blocks in any order and with any gaps between their tokens. The
    header parser (compiler/crates/kryos-bindgen/src/c_parser.rs) reads them all, in order and
    without errors, and says what C means exactly under the condition stated at the end. */
module DeclarationRoundTrip {
  import opened Wrappers
  import opened Numerals
  import opened HeaderGrammar
  import opened HeaderLayout
  import opened TypeSpellings
  import opened PrototypeRoundTrip
  import opened NumericConstants
  import opened StructRoundTrip
  import opened EnumRoundTrip
  import opened DefineRoundTrip
  import Text

  // ----- declarations -----

  datatype Decl =
    | Prototype(proto: Proto)
    | StructOf(name: string, members: seq<Declarator>, variable: Option<string>)
    | EnumOf(name: string, variants: seq<Enumerator>, comma: bool, variable: Option<string>)
    | Forward(keyword: string, tag: string)
    | TypedefOf(target: Declarator)
    | TypedefStructOf(structTag: Option<string>, members: seq<Declarator>, stars: nat, alias: string)
    | TypedefEnumOf(enumTag: Option<string>, variants: seq<Enumerator>, comma: bool, alias: string)
    | Directive(line: Line)

  predicate MaybeWord(w: Option<string>) {
    w.Some? ==> IsWord(w.value)
  }

  /** A declaration that starts with `struct` or `enum` is taken for one of them. */
  predicate OpensWithTag(t: TypeText) {
    t.base.Tagged? && t.base.before == []
  }

  predicate DeclOk(d: Decl) {
    match d
    case Prototype(p) => ProtoOk(p) && !OpensWithTag(p.ret)
    case StructOf(n, ms, v) => IsWord(n) && MembersOk(ms) && MaybeWord(v)
    case EnumOf(n, vs, _, v) => IsWord(n) && EnumeratorsOk(vs) && MaybeWord(v)
    case Forward(k, t) => (k == "struct" || k == "enum") && IsWord(t)
    case TypedefOf(t) => DeclaratorOk(t)
    case TypedefStructOf(t, ms, _, a) => MaybeWord(t) && MembersOk(ms) && IsWord(a)
    case TypedefEnumOf(t, vs, _, a) => MaybeWord(t) && EnumeratorsOk(vs) && IsWord(a)
    case Directive(l) => LineOk(l)
  }

  predicate DeclsOk(ds: seq<Decl>) {
    forall k | 0 <= k < |ds| :: DeclOk(ds[k])
  }

  function RepeatedStar(n: nat): seq<Token> {
    seq(n, _ => "*")
  }

  /** A body in braces and what stands in front of its semicolon. */
  function Braced(body: seq<Token>, behind: seq<Token>): seq<Token> {
    ["{"] + (body + (["}"] + (behind + [";"])))
  }

  function DeclTokens(d: Decl): seq<Token> {
    match d
    case Prototype(p) => ProtoTokens(p)
    case StructOf(n, ms, v) => ["struct"] + ([n] + Braced(BodyTokens(ms), Maybe(v)))
    case EnumOf(n, vs, comma, v) => ["enum"] + ([n] + Braced(EnumTokens(vs, comma), Maybe(v)))
    case Forward(k, t) => [k] + ([t] + [";"])
    case TypedefOf(t) => ["typedef"] + MemberTokens(t)
    case TypedefStructOf(t, ms, stars, a) =>
      ["typedef"] + (["struct"] + (Maybe(t) + Braced(BodyTokens(ms), RepeatedStar(stars) + [a])))
    case TypedefEnumOf(t, vs, comma, a) =>
      ["typedef"] + (["enum"] + (Maybe(t) + Braced(EnumTokens(vs, comma), [a])))
    case Directive(l) => [LineText(l)]
  }

  /** The name that an alias stands for: the tag, or the alias where there is none. */
  function TagOr(tag: Option<string>, alias: string): string {
    if tag.Some? then tag.value else alias
  }

  /** An alias with the name of its tag adds nothing. */
  function AliasOf(alias: string, stars: nat, tag: string): seq<CItem> {
    if stars == 0 && alias == tag then [] else [Typedef(alias, Pointers(stars, Named(tag)))]
  }

  /** What the parser makes of a declaration; it drops the lines of an `extern` block. */
  function ReadDecl(d: Decl, inBlock: bool): seq<CItem> {
    match d
    case Prototype(p) => [ReadProto(p)]
    case StructOf(n, ms, _) => [Struct(n, ReadFields(ms))]
    case EnumOf(n, vs, _, _) => [Enum(n, ReadEnumerators(vs))]
    case Forward(_, _) => []
    case TypedefOf(t) => [Typedef(t.name, ReadDeclarator(t))]
    case TypedefStructOf(t, ms, stars, a) => [Struct(TagOr(t, a), ReadFields(ms))] + AliasOf(a, stars, TagOr(t, a))
    case TypedefEnumOf(t, vs, _, a) => [Enum(TagOr(t, a), ReadEnumerators(vs))] + AliasOf(a, 0, TagOr(t, a))
    case Directive(l) => if inBlock then [] else ReadLine(l)
  }

  /** What a declaration says. */
  function DeclMeaning(d: Decl): seq<CItem>
    requires DeclOk(d)
  {
    match d
    case Prototype(p) => [ProtoMeaning(p)]
    case StructOf(n, ms, _) => [Struct(n, FieldsMeaning(ms))]
    case EnumOf(n, vs, _, _) => [Enum(n, EnumeratorsMeaning(vs))]
    case Forward(_, _) => []
    case TypedefOf(t) => [Typedef(t.name, DeclaratorMeaning(t))]
    case TypedefStructOf(t, ms, stars, a) => [Struct(TagOr(t, a), FieldsMeaning(ms))] + AliasOf(a, stars, TagOr(t, a))
    case TypedefEnumOf(t, vs, _, a) => [Enum(TagOr(t, a), EnumeratorsMeaning(vs))] + AliasOf(a, 0, TagOr(t, a))
    case Directive(l) => LineMeaning(l)
  }

  // ----- reading declarations -----

  /** A declaration was read: these items are new, and the rest stands next. */
  predicate HasRead(s: string, st: State, r: State, items: seq<CItem>, rest: seq<Token>) {
    r.items == st.items + items && r.errors == st.errors && At(s, r.pos, rest)
  }

  lemma OpeningIsRead(s: string, i: nat, rest: seq<Token>)
    requires At(s, i, ["{"] + rest)
    ensures i <= |s| && PeekIs(s, Blank(s, i), '{') && At(s, Blank(s, i) + 1, rest)
  {
    hide At, Blank;
    var toks := ["{"] + rest;
    InText(s, i, toks);
    assert toks[0] == "{" && toks[1..] == rest;
    SymbolIsPeeked(s, i, '{', toks);
  }

  lemma BracedParts(body: seq<Token>, behind: seq<Token>, rest: seq<Token>)
    ensures Braced(body, behind) + rest == ["{"] + (body + (["}"] + (behind + ([";"] + rest))))
  {
    assert behind + [";"] + rest == behind + ([";"] + rest);
    assert ["}"] + (behind + [";"]) + rest == ["}"] + (behind + ([";"] + rest));
    assert body + (["}"] + (behind + [";"])) + rest == body + (["}"] + (behind + ([";"] + rest)));
  }

  /** An optional word and the semicolon. */
  lemma MaybeWordIsRead(s: string, m: nat, w: Option<string>, c: Token, rest: seq<Token>)
    requires At(s, m, Maybe(w) + ([c] + rest)) && MaybeWord(w) && (c == ";" || c == "{")
    ensures m <= |s| && ReadIdent(s, Blank(s, m)).0 == w && At(s, ReadIdent(s, Blank(s, m)).1, [c] + rest)
  {
    hide At, Blank, ReadIdent, IsWord;
    var toks := Maybe(w) + ([c] + rest);
    InText(s, m, toks);
    BlankIsSkipped(s, m, toks);
    if w.Some? {
      TagIsRead(s, Blank(s, m), w.value, [c] + rest);
    } else {
      assert toks == [c] + rest && toks[0] == c;
      assert !StartsWord(";") && !StartsWord("{");
      NoWordIsRead(s, Blank(s, m), toks);
    }
  }

  lemma StructIsRead(s: string, st: State, n: string, ms: seq<Declarator>, v: Option<string>, rest: seq<Token>)
    requires IsWord(n) && MembersOk(ms) && MaybeWord(v)
    requires At(s, st.pos, [n] + (Braced(BodyTokens(ms), Maybe(v)) + rest))
    ensures Ok(s, st) && HasRead(s, st, StructDecl(s, st), [Struct(n, ReadFields(ms))], rest)
  {
    hide At, Blank, ReadIdent, StructFields, ExpectChar, BodyTokens, ReadFields, IsWord, Braced, MembersOk;
    var close := Maybe(v) + ([";"] + rest);
    var body := Braced(BodyTokens(ms), Maybe(v)) + rest;
    InText(s, st.pos, [n] + body);
    BlankIsSkipped(s, st.pos, [n] + body);
    TagIsRead(s, Blank(s, st.pos), n, body);
    BracedParts(BodyTokens(ms), Maybe(v), rest);
    var j := ReadIdent(s, Blank(s, st.pos)).1;
    OpeningIsRead(s, j, BodyTokens(ms) + (["}"] + close));
    MembersAreRead(s, Blank(s, j) + 1, ms, [], st.errors, close);
    assert [] + ReadFields(ms) == ReadFields(ms);
    var m := StructFields(s, Blank(s, j) + 1, [], st.errors).1;
    MaybeWordIsRead(s, m, v, ";", rest);
    ExpectedIsRead(s, ReadIdent(s, Blank(s, m)).1, ';', rest);
  }

  lemma EnumIsRead(s: string, st: State, n: string, vs: seq<Enumerator>, comma: bool, v: Option<string>,
                   rest: seq<Token>)
    requires IsWord(n) && EnumeratorsOk(vs) && MaybeWord(v)
    requires At(s, st.pos, [n] + (Braced(EnumTokens(vs, comma), Maybe(v)) + rest))
    ensures Ok(s, st) && HasRead(s, st, EnumDecl(s, st), [Enum(n, ReadEnumerators(vs))], rest)
  {
    hide At, Blank, ReadIdent, EnumVariants, ExpectChar, EnumTokens, ReadEnumerators, IsWord, Braced, EnumeratorsOk;
    var close := Maybe(v) + ([";"] + rest);
    var body := Braced(EnumTokens(vs, comma), Maybe(v)) + rest;
    InText(s, st.pos, [n] + body);
    BlankIsSkipped(s, st.pos, [n] + body);
    TagIsRead(s, Blank(s, st.pos), n, body);
    BracedParts(EnumTokens(vs, comma), Maybe(v), rest);
    var j := ReadIdent(s, Blank(s, st.pos)).1;
    OpeningIsRead(s, j, EnumTokens(vs, comma) + (["}"] + close));
    VariantsAreRead(s, Blank(s, j) + 1, vs, comma, [], st.errors, close);
    assert [] + ReadEnumerators(vs) == ReadEnumerators(vs);
    var m := EnumVariants(s, Blank(s, j) + 1, [], st.errors).1;
    MaybeWordIsRead(s, m, v, ";", rest);
    ExpectedIsRead(s, ReadIdent(s, Blank(s, m)).1, ';', rest);
  }

  /** Right at the semicolon. */
  lemma SemicolonEnds(s: string, k: nat, rest: seq<Token>)
    requires At(s, k, [";"] + rest) && k <= |s| && Blank(s, k) == k
    ensures SkipPast(s, k, ';') == k + 1 && At(s, k + 1, rest) && PeekIs(s, k, ';')
  {
    hide At, Blank;
    var toks := [";"] + rest;
    assert toks[0] == ";" && toks[1..] == rest;
    SymbolIsPeeked(s, k, ';', toks);
    FindsFirst(s, k, ';', k);
  }

  lemma BlankStays(s: string, i: nat)
    requires i <= |s|
    ensures Blank(s, Blank(s, i)) == Blank(s, i)
  {
    hide Blank;
    BlankTwice(s, i);
  }

  lemma ForwardIsRead(s: string, st: State, t: string, rest: seq<Token>)
    requires IsWord(t) && At(s, st.pos, [t] + ([";"] + rest))
    ensures Ok(s, st) && HasRead(s, st, StructDecl(s, st), [], rest) && HasRead(s, st, EnumDecl(s, st), [], rest)
  {
    hide At, Blank, ReadIdent, StructFields, EnumVariants, ExpectChar, IsWord, SkipPast;
    InText(s, st.pos, [t] + ([";"] + rest));
    BlankIsSkipped(s, st.pos, [t] + ([";"] + rest));
    TagIsRead(s, Blank(s, st.pos), t, [";"] + rest);
    var j := ReadIdent(s, Blank(s, st.pos)).1;
    BlankIsSkipped(s, j, [";"] + rest);
    BlankStays(s, j);
    SemicolonEnds(s, Blank(s, j), rest);
    assert st.items + [] == st.items;
  }

  // ----- reading typedefs -----

  lemma {:induction false} StarsAreSkipped(s: string, i: nat, n: nat, a: string, rest: seq<Token>)
    requires At(s, i, RepeatedStar(n) + ([a] + rest)) && IsWord(a) && i <= |s| && Blank(s, i) == i
    ensures SkipStars(s, i).0 == n && At(s, SkipStars(s, i).1, [a] + rest)
    decreases n
  {
    hide At, Blank;
    var toks := RepeatedStar(n) + ([a] + rest);
    SymbolIsPeeked(s, i, '*', toks);
    if n == 0 {
      assert toks == [a] + rest && toks[0] == a;
      assert IsIdentChar(a[0]);
    } else {
      var more := RepeatedStar(n - 1) + ([a] + rest);
      assert toks[0] == "*" && toks[1..] == more;
      InText(s, i + 1, more);
      BlankIsSkipped(s, i + 1, more);
      BlankStays(s, i + 1);
      StarsAreSkipped(s, Blank(s, i + 1), n - 1, a, rest);
    }
  }

  lemma TypedefStructIsRead(s: string, st: State, t: Option<string>, ms: seq<Declarator>, stars: nat, a: string,
                            rest: seq<Token>)
    requires MaybeWord(t) && MembersOk(ms) && IsWord(a) && Ok(s, st) && Blank(s, st.pos) == st.pos
    requires At(s, st.pos, Braced(BodyTokens(ms), RepeatedStar(stars) + [a]) + rest)
    ensures PeekIs(s, st.pos, '{')
    ensures HasRead(s, st, TypedefStruct(s, t, st), ReadDecl(TypedefStructOf(t, ms, stars, a), false), rest)
  {
    hide At, Blank, ReadIdent, StructFields, ExpectChar, SkipStars, BodyTokens, ReadFields, IsWord, Braced, MembersOk,
         RepeatedStar, Pointers;
    var alias := [a] + ([";"] + rest);
    var close := RepeatedStar(stars) + alias;
    BracedParts(BodyTokens(ms), RepeatedStar(stars) + [a], rest);
    assert RepeatedStar(stars) + [a] + ([";"] + rest) == close;
    OpeningIsRead(s, st.pos, BodyTokens(ms) + (["}"] + close));
    MembersAreRead(s, st.pos + 1, ms, [], st.errors, close);
    assert [] + ReadFields(ms) == ReadFields(ms);
    var m := StructFields(s, st.pos + 1, [], st.errors).1;
    InText(s, m, close);
    BlankIsSkipped(s, m, close);
    BlankStays(s, m);
    StarsAreSkipped(s, Blank(s, m), stars, a, [";"] + rest);
    var n := SkipStars(s, Blank(s, m)).1;
    TagIsRead(s, n, a, [";"] + rest);
    ExpectedIsRead(s, ReadIdent(s, n).1, ';', rest);
    NoStars(TagOr(t, a));
  }

  lemma NoStars(tag: string)
    ensures Pointers(0, Named(tag)) == Named(tag)
  {
  }

  lemma TypedefEnumIsRead(s: string, st: State, t: Option<string>, vs: seq<Enumerator>, comma: bool, a: string,
                          rest: seq<Token>)
    requires MaybeWord(t) && EnumeratorsOk(vs) && IsWord(a) && Ok(s, st) && Blank(s, st.pos) == st.pos
    requires At(s, st.pos, Braced(EnumTokens(vs, comma), [a]) + rest)
    ensures PeekIs(s, st.pos, '{')
    ensures HasRead(s, st, TypedefEnum(s, t, st), ReadDecl(TypedefEnumOf(t, vs, comma, a), false), rest)
  {
    hide At, Blank, ReadIdent, EnumVariants, ExpectChar, EnumTokens, ReadEnumerators, IsWord, Braced, EnumeratorsOk;
    var close := [a] + ([";"] + rest);
    BracedParts(EnumTokens(vs, comma), [a], rest);
    OpeningIsRead(s, st.pos, EnumTokens(vs, comma) + (["}"] + close));
    VariantsAreRead(s, st.pos + 1, vs, comma, [], st.errors, close);
    assert [] + ReadEnumerators(vs) == ReadEnumerators(vs);
    var m := EnumVariants(s, st.pos + 1, [], st.errors).1;
    InText(s, m, close);
    BlankIsSkipped(s, m, close);
    TagIsRead(s, Blank(s, m), a, [";"] + rest);
    ExpectedIsRead(s, ReadIdent(s, Blank(s, m)).1, ';', rest);
    NoStars(TagOr(t, a));
  }

  lemma PlainTypedefIsRead(s: string, st: State, d: Declarator, rest: seq<Token>)
    requires DeclaratorOk(d) && At(s, st.pos, MemberTokens(d) + rest)
    ensures Ok(s, st) && HasRead(s, st, PlainTypedef(s, st), [Typedef(d.name, ReadDeclarator(d))], rest)
  {
    hide At, Blank, ParseType, ReadIdent, ArraySuffix, ExpectChar, MemberTokens, ReadType, DeclaratorOk,
         ReadDeclarator;
    DeclaratorIsRead(s, st.pos, d, rest);
  }

  /** Tokens that open no brace. */
  predicate NoBrace(t: Token) {
    t != "" && t[0] != '{' && (IsWord(t) || !StartsWord(t))
  }

  lemma InnerOpensNoBrace(t: Token)
    requires Inner(t) || t == ";"
    ensures NoBrace(t)
  {
    if IsWord(t) {
      assert IsIdentChar(t[0]);
    }
  }

  lemma MemberHasNoBrace(d: Declarator)
    requires DeclaratorOk(d)
    ensures |MemberTokens(d)| >= 3 && forall k | 0 <= k < |MemberTokens(d)| :: NoBrace(MemberTokens(d)[k])
  {
    hide NoBrace, Inner, TypeTokensOf, BracketTokens, IsName;
    TypeIsInner(d.ty);
    TypeOpens(d.ty);
    DeclaratorIsInner(Some(d.name), d.brackets);
    var declarator := DeclaratorTokens(Some(d.name), d.brackets);
    var toks := MemberTokens(d);
    assert toks == TypeTokensOf(d.ty) + declarator + [";"];
    forall k | 0 <= k < |toks|
      ensures NoBrace(toks[k])
    {
      if k < |TypeTokensOf(d.ty)| {
        assert toks[k] == TypeTokensOf(d.ty)[k];
      } else if k < |toks| - 1 {
        assert toks[k] == declarator[k - |TypeTokensOf(d.ty)|];
      }
      InnerOpensNoBrace(toks[k]);
    }
  }

  /** Behind two tokens, or one if the second is no word, no brace opens. */
  lemma NoBraceStands(s: string, i: nat, toks: seq<Token>)
    requires At(s, i, toks) && |toks| >= 3 && IsWord(toks[0]) && NoBrace(toks[1]) && NoBrace(toks[2])
    ensures i <= |s|
    ensures var j := ReadIdent(s, i).1; var m := ReadIdent(s, Blank(s, j)).1; !PeekIs(s, Blank(s, m), '{')
  {
    hide At, Blank, ReadIdent, IsWord, StartsWord;
    InText(s, i, toks);
    WordIsRead(s, i, toks);
    var j := ReadIdent(s, i).1;
    BlankIsSkipped(s, j, toks[1..]);
    if IsWord(toks[1]) {
      WordIsRead(s, Blank(s, j), toks[1..]);
      assert toks[1..][1..] == toks[2..];
      SymbolIsPeeked(s, ReadIdent(s, Blank(s, j)).1, '{', toks[2..]);
    } else {
      NoWordIsRead(s, Blank(s, j), toks[1..]);
      SymbolIsPeeked(s, ReadIdent(s, Blank(s, j)).1, '{', toks[1..]);
    }
  }

  /** A typedef of a type, whatever word it starts with. */
  lemma TypedefIsRead(s: string, st: State, d: Declarator, rest: seq<Token>)
    requires DeclaratorOk(d) && At(s, st.pos, MemberTokens(d) + rest)
    ensures Ok(s, st) && HasRead(s, st, TypedefDecl(s, st), [Typedef(d.name, ReadDeclarator(d))], rest)
  {
    hide At, Blank, ReadIdent, PlainTypedef, TypedefStruct, TypedefEnum, MemberTokens, DeclaratorOk, ReadDeclarator,
         NoBrace, IsWord;
    var toks := MemberTokens(d) + rest;
    InText(s, st.pos, toks);
    var i := Blank(s, st.pos);
    MemberOpens(d, rest);
    MemberHasNoBrace(d);
    BlankIsSkipped(s, st.pos, toks);
    assert toks[1] == MemberTokens(d)[1] && toks[2] == MemberTokens(d)[2];
    NoBraceStands(s, i, toks);
    PlainTypedefIsRead(s, st.(pos := i), d, rest);
  }

  /** Behind `typedef`: `struct` or `enum`, the optional tag, and the brace. */
  lemma TagThenBrace(s: string, i: nat, keyword: string, t: Option<string>, rest: seq<Token>)
    requires At(s, i, [keyword] + (Maybe(t) + (["{"] + rest))) && IsWord(keyword) && MaybeWord(t)
    ensures i <= |s|
    ensures var (kw, j) := ReadIdent(s, i); var (tag, m) := ReadIdent(s, Blank(s, j)); var k := Blank(s, m);
            && kw == Some(keyword) && tag == t && Blank(s, k) == k && PeekIs(s, k, '{') && At(s, k, ["{"] + rest)
  {
    hide At, Blank, ReadIdent, IsWord;
    var behind := Maybe(t) + (["{"] + rest);
    InText(s, i, [keyword] + behind);
    TagIsRead(s, i, keyword, behind);
    var j := ReadIdent(s, i).1;
    MaybeWordIsRead(s, j, t, "{", rest);
    var m := ReadIdent(s, Blank(s, j)).1;
    BlankIsSkipped(s, m, ["{"] + rest);
    BlankStays(s, m);
    OpeningIsRead(s, m, rest);
  }

  lemma KeywordsAreWords()
    ensures IsWord("typedef") && IsWord("struct") && IsWord("enum") && IsWord("extern")
  {
  }

  lemma StructTypedefIsRead(s: string, st: State, t: Option<string>, ms: seq<Declarator>, stars: nat, a: string,
                            rest: seq<Token>)
    requires MaybeWord(t) && MembersOk(ms) && IsWord(a)
    requires At(s, st.pos, ["struct"] + (Maybe(t) + (Braced(BodyTokens(ms), RepeatedStar(stars) + [a]) + rest)))
    ensures Ok(s, st)
    ensures HasRead(s, st, TypedefDecl(s, st), ReadDecl(TypedefStructOf(t, ms, stars, a), false), rest)
  {
    hide At, Blank, ReadIdent, PlainTypedef, TypedefStruct, TypedefEnum, IsWord, BodyTokens, MembersOk, ReadDecl,
         RepeatedStar, Braced;
    var behind := BodyTokens(ms) + (["}"] + (RepeatedStar(stars) + [a] + ([";"] + rest)));
    var toks := ["struct"] + (Maybe(t) + (Braced(BodyTokens(ms), RepeatedStar(stars) + [a]) + rest));
    BracedParts(BodyTokens(ms), RepeatedStar(stars) + [a], rest);
    KeywordsAreWords();
    InText(s, st.pos, toks);
    var i := Blank(s, st.pos);
    BlankIsSkipped(s, st.pos, toks);
    TagThenBrace(s, i, "struct", t, behind);
    var k := Blank(s, ReadIdent(s, Blank(s, ReadIdent(s, i).1)).1);
    TypedefStructIsRead(s, st.(pos := k), t, ms, stars, a, rest);
  }

  lemma EnumTypedefIsRead(s: string, st: State, t: Option<string>, vs: seq<Enumerator>, comma: bool, a: string,
                          rest: seq<Token>)
    requires MaybeWord(t) && EnumeratorsOk(vs) && IsWord(a)
    requires At(s, st.pos, ["enum"] + (Maybe(t) + (Braced(EnumTokens(vs, comma), [a]) + rest)))
    ensures Ok(s, st)
    ensures HasRead(s, st, TypedefDecl(s, st), ReadDecl(TypedefEnumOf(t, vs, comma, a), false), rest)
  {
    hide At, Blank, ReadIdent, PlainTypedef, TypedefStruct, TypedefEnum, IsWord, EnumTokens, EnumeratorsOk, ReadDecl,
         Braced;
    var behind := EnumTokens(vs, comma) + (["}"] + ([a] + ([";"] + rest)));
    var toks := ["enum"] + (Maybe(t) + (Braced(EnumTokens(vs, comma), [a]) + rest));
    BracedParts(EnumTokens(vs, comma), [a], rest);
    KeywordsAreWords();
    InText(s, st.pos, toks);
    var i := Blank(s, st.pos);
    BlankIsSkipped(s, st.pos, toks);
    TagThenBrace(s, i, "enum", t, behind);
    var k := Blank(s, ReadIdent(s, Blank(s, ReadIdent(s, i).1)).1);
    TypedefEnumIsRead(s, st.(pos := k), t, vs, comma, a, rest);
  }

  // ----- one declaration -----

  lemma FunctionIsRead(s: string, st: State, p: Proto, rest: seq<Token>)
    requires ProtoOk(p) && At(s, st.pos, ProtoTokens(p) + rest)
    ensures Ok(s, st) && HasRead(s, st, FunctionOrSkip(s, st), [ReadProto(p)], rest)
  {
    hide At, FunctionAt, ProtoTokens, ProtoOk, ReadProto;
    PrototypeIsRead(s, st.pos, p, st.errors, rest);
  }

  /** The words that open another declaration. */
  predicate OpensOther(w: string) {
    w == "typedef" || w == "struct" || w == "enum" || w == "extern"
  }

  lemma NoTypeWord(w: string)
    requires IsQualifier(w) || IsTypeKeyword(w) || (IsTypeStart(w) && w != "struct" && w != "enum")
    ensures !OpensOther(w)
  {
  }

  /** The first word of a type that starts with no tag. */
  lemma TypeWordIsNoOther(t: TypeText)
    requires TypeOk(t) && !OpensWithTag(t)
    ensures TypeTokensOf(t) != [] && !OpensOther(TypeTokensOf(t)[0])
  {
    hide IsTypeKeyword, IsTypeStart, IsQualifier, IsWord, StarTokens, OpensOther;
    TypeOpens(t);
    var lead := LeadTokens(t.base);
    SpecifierNotEmpty(t.base);
    Front(lead, TagTokens(t.base) + (BehindTokens(t.base) + StarTokens(t.stars)));
    if t.base.Spelled? && !IsQualifier(lead[0]) {
      assert Unqualified(lead)[0] == lead[0];
    }
    NoTypeWord(lead[0]);
  }

  lemma ProtoOpens(p: Proto, rest: seq<Token>)
    requires ProtoOk(p)
    ensures var toks := ProtoTokens(p) + rest; toks != [] && IsWord(toks[0]) && toks[0] == TypeTokensOf(p.ret)[0]
  {
    hide TypeTokensOf, ListTokens, ProtoTail, IsWord, TypeOk, ParamsOk, IsName;
    TypeOpens(p.ret);
    var tail := [p.name] + (["("] + (ListTokens(p.params, p.variadic) + ([")"] + ProtoTail(p))));
    Front(TypeTokensOf(p.ret), tail);
    Front(ProtoTokens(p), rest);
  }

  /** A declaration on its own or in a block, except for the lines of the preprocessor. */
  ghost predicate DeclHasRead(s: string, st: State, d: Decl, rest: seq<Token>) {
    && Ok(s, st)
    && st.pos < TopDecl(s, st).pos && InnerDecl(s, st) == TopDecl(s, st)
    && HasRead(s, st, TopDecl(s, st), ReadDecl(d, false), rest)
  }

  lemma PrototypeDeclIsRead(s: string, st: State, d: Decl, rest: seq<Token>)
    requires d.Prototype? && DeclOk(d) && At(s, st.pos, DeclTokens(d) + rest)
    ensures DeclHasRead(s, st, d, rest)
  {
    hide At, ReadIdent, FunctionOrSkip, TypedefDecl, StructDecl, EnumDecl, ExternDecl, ProtoTokens, ProtoOk, ReadProto,
         IsWord, TypeTokensOf, TypeOk, OpensWithTag;
    var toks := ProtoTokens(d.proto) + rest;
    InText(s, st.pos, toks);
    ProtoOpens(d.proto, rest);
    ProtoTypeOk(d.proto);
    TypeWordIsNoOther(d.proto.ret);
    WordIsRead(s, st.pos, toks);
    FunctionIsRead(s, st, d.proto, rest);
    FunctionMoves(s, st, toks);
  }

  lemma ProtoTypeOk(p: Proto)
    requires ProtoOk(p)
    ensures TypeOk(p.ret)
  {
  }

  lemma FunctionMoves(s: string, st: State, toks: seq<Token>)
    requires Ok(s, st) && At(s, st.pos, toks) && toks != []
    ensures st.pos < |s| && st.pos < FunctionOrSkip(s, st).pos
  {
    hide Blank, Stands, FunctionAt;
    Next(s, st.pos, toks);
  }

  lemma KeywordIsRead(s: string, st: State, w: string, behind: seq<Token>)
    requires At(s, st.pos, [w] + behind) && IsWord(w)
    ensures Ok(s, st)
    ensures var (ident, j) := ReadIdent(s, st.pos); ident == Some(w) && st.pos < j && At(s, j, behind)
  {
    hide At, ReadIdent, IsWord;
    InText(s, st.pos, [w] + behind);
    TagIsRead(s, st.pos, w, behind);
  }

  lemma StructDeclIsRead(s: string, st: State, d: Decl, rest: seq<Token>)
    requires (d.StructOf? || (d.Forward? && d.keyword == "struct")) && DeclOk(d) && At(s, st.pos, DeclTokens(d) + rest)
    ensures DeclHasRead(s, st, d, rest)
  {
    hide At, ReadIdent, FunctionOrSkip, TypedefDecl, StructDecl, EnumDecl, ExternDecl, IsWord, BodyTokens, Braced,
         ReadFields, MembersOk;
    KeywordsAreWords();
    if d.StructOf? {
      var behind := [d.name] + (Braced(BodyTokens(d.members), Maybe(d.variable)) + rest);
      assert DeclTokens(d) + rest == ["struct"] + behind;
      KeywordIsRead(s, st, "struct", behind);
      StructIsRead(s, st.(pos := ReadIdent(s, st.pos).1), d.name, d.members, d.variable, rest);
    } else {
      var behind := [d.tag] + ([";"] + rest);
      assert DeclTokens(d) + rest == ["struct"] + behind;
      KeywordIsRead(s, st, "struct", behind);
      ForwardIsRead(s, st.(pos := ReadIdent(s, st.pos).1), d.tag, rest);
    }
  }

  lemma EnumDeclIsRead(s: string, st: State, d: Decl, rest: seq<Token>)
    requires (d.EnumOf? || (d.Forward? && d.keyword == "enum")) && DeclOk(d) && At(s, st.pos, DeclTokens(d) + rest)
    ensures DeclHasRead(s, st, d, rest)
  {
    hide At, ReadIdent, FunctionOrSkip, TypedefDecl, StructDecl, EnumDecl, ExternDecl, IsWord, EnumTokens, Braced,
         ReadEnumerators, EnumeratorsOk;
    KeywordsAreWords();
    if d.EnumOf? {
      var behind := [d.name] + (Braced(EnumTokens(d.variants, d.comma), Maybe(d.variable)) + rest);
      assert DeclTokens(d) + rest == ["enum"] + behind;
      KeywordIsRead(s, st, "enum", behind);
      EnumIsRead(s, st.(pos := ReadIdent(s, st.pos).1), d.name, d.variants, d.comma, d.variable, rest);
    } else {
      var behind := [d.tag] + ([";"] + rest);
      assert DeclTokens(d) + rest == ["enum"] + behind;
      KeywordIsRead(s, st, "enum", behind);
      ForwardIsRead(s, st.(pos := ReadIdent(s, st.pos).1), d.tag, rest);
    }
  }

  /** What stands behind `typedef`. */
  lemma TypedefBody(s: string, st: State, d: Decl, behind: seq<Token>, rest: seq<Token>)
    requires DeclOk(d) && (d.TypedefOf? || d.TypedefStructOf? || d.TypedefEnumOf?)
    requires DeclTokens(d) == ["typedef"] + behind && At(s, st.pos, behind + rest)
    ensures Ok(s, st) && HasRead(s, st, TypedefDecl(s, st), ReadDecl(d, false), rest)
  {
    hide At, TypedefDecl, BodyTokens, EnumTokens, MemberTokens, ReadDecl, MembersOk, EnumeratorsOk, Braced, IsWord,
         DeclaratorOk, RepeatedStar, HasRead;
    assert behind == DeclTokens(d)[1..];
    match d
    case TypedefOf(t) =>
      assert behind == MemberTokens(t);
      TypedefIsRead(s, st, t, rest);
      assert ReadDecl(d, false) == [Typedef(t.name, ReadDeclarator(t))] by {
        TypedefReads(t);
      }
    case TypedefStructOf(t, ms, stars, a) =>
      var body := Braced(BodyTokens(ms), RepeatedStar(stars) + [a]);
      assert behind == ["struct"] + (Maybe(t) + body);
      assert behind + rest == ["struct"] + (Maybe(t) + (body + rest));
      StructTypedefIsRead(s, st, t, ms, stars, a, rest);
    case TypedefEnumOf(t, vs, comma, a) =>
      var body := Braced(EnumTokens(vs, comma), [a]);
      assert behind == ["enum"] + (Maybe(t) + body);
      assert behind + rest == ["enum"] + (Maybe(t) + (body + rest));
      EnumTypedefIsRead(s, st, t, vs, comma, a, rest);
    case _ =>
  }

  lemma TypedefReads(t: Declarator)
    ensures ReadDecl(TypedefOf(t), false) == [Typedef(t.name, ReadDeclarator(t))]
  {
  }

  lemma TypedefOpens(d: Decl)
    requires d.TypedefOf? || d.TypedefStructOf? || d.TypedefEnumOf?
    ensures DeclTokens(d) != [] && DeclTokens(d) == ["typedef"] + DeclTokens(d)[1..]
  {
    hide MemberTokens, BodyTokens, EnumTokens, Braced, RepeatedStar;
  }

  lemma TypedefDeclIsRead(s: string, st: State, d: Decl, rest: seq<Token>)
    requires (d.TypedefOf? || d.TypedefStructOf? || d.TypedefEnumOf?) && DeclOk(d)
    requires At(s, st.pos, DeclTokens(d) + rest)
    ensures DeclHasRead(s, st, d, rest)
  {
    hide At, ReadIdent, FunctionOrSkip, TypedefDecl, StructDecl, EnumDecl, ExternDecl, IsWord, DeclTokens, DeclOk,
         ReadDecl;
    TypedefOpens(d);
    var behind := DeclTokens(d)[1..];
    assert DeclTokens(d) + rest == ["typedef"] + (behind + rest);
    KeywordsAreWords();
    KeywordIsRead(s, st, "typedef", behind + rest);
    TypedefBody(s, st.(pos := ReadIdent(s, st.pos).1), d, behind, rest);
  }

  lemma DeclIsRead(s: string, st: State, d: Decl, rest: seq<Token>)
    requires !d.Directive? && DeclOk(d) && At(s, st.pos, DeclTokens(d) + rest)
    ensures DeclHasRead(s, st, d, rest)
  {
    ForwardKeyword(d);
    hide *;
    match d
    case Prototype(_) => PrototypeDeclIsRead(s, st, d, rest);
    case StructOf(_, _, _) => StructDeclIsRead(s, st, d, rest);
    case EnumOf(_, _, _, _) => EnumDeclIsRead(s, st, d, rest);
    case Forward(k, _) =>
      if k == "struct" {
        StructDeclIsRead(s, st, d, rest);
      } else {
        EnumDeclIsRead(s, st, d, rest);
      }
    case TypedefOf(_) => TypedefDeclIsRead(s, st, d, rest);
    case TypedefStructOf(_, _, _, _) => TypedefDeclIsRead(s, st, d, rest);
    case TypedefEnumOf(_, _, _, _) => TypedefDeclIsRead(s, st, d, rest);
  }

  lemma ForwardKeyword(d: Decl)
    requires DeclOk(d)
    ensures d.Forward? ==> d.keyword == "struct" || d.keyword == "enum"
  {
  }

  // ----- headers -----

  /** At the top of a header: a declaration, an `extern` prototype, or an `extern` block. */
  datatype Unit =
    | Single(decl: Decl)
    | External(language: Option<string>, proto: Proto)
    | Block(language: Option<string>, decls: seq<Decl>, semicolon: bool)

  predicate LanguageOk(l: Option<string>) {
    l.Some? ==> forall k | 0 <= k < |l.value| :: l.value[k] != '"'
  }

  predicate UnitOk(u: Unit) {
    match u
    case Single(d) => DeclOk(d)
    case External(l, p) => LanguageOk(l) && DeclOk(Prototype(p))
    case Block(l, ds, _) => LanguageOk(l) && DeclsOk(ds)
  }

  predicate UnitsOk(us: seq<Unit>) {
    forall k | 0 <= k < |us| :: UnitOk(us[k])
  }

  function Quoted(t: string): string {
    "\"" + (t + "\"")
  }

  function LanguageTokens(l: Option<string>): seq<Token> {
    if l.Some? then [Quoted(l.value)] else []
  }

  function AllTokens(ds: seq<Decl>): seq<Token> {
    if ds == [] then [] else DeclTokens(ds[0]) + AllTokens(ds[1..])
  }

  function UnitTokens(u: Unit): seq<Token> {
    match u
    case Single(d) => DeclTokens(d)
    case External(l, p) => ["extern"] + (LanguageTokens(l) + ProtoTokens(p))
    case Block(l, ds, semicolon) =>
      ["extern"] + (LanguageTokens(l) + (["{"] + (AllTokens(ds) + (["}"] + (if semicolon then [";"] else [])))))
  }

  function HeaderTokens(us: seq<Unit>): seq<Token> {
    if us == [] then [] else UnitTokens(us[0]) + HeaderTokens(us[1..])
  }

  function ReadAll(ds: seq<Decl>): seq<CItem> {
    if ds == [] then [] else ReadDecl(ds[0], true) + ReadAll(ds[1..])
  }

  function ReadUnit(u: Unit): seq<CItem> {
    match u
    case Single(d) => ReadDecl(d, false)
    case External(_, p) => [ReadProto(p)]
    case Block(_, ds, _) => ReadAll(ds)
  }

  function ReadHeader(us: seq<Unit>): seq<CItem> {
    if us == [] then [] else ReadUnit(us[0]) + ReadHeader(us[1..])
  }

  function AllMeaning(ds: seq<Decl>): seq<CItem>
    requires DeclsOk(ds)
  {
    if ds == [] then [] else DeclMeaning(ds[0]) + AllMeaning(ds[1..])
  }

  function UnitMeaning(u: Unit): seq<CItem>
    requires UnitOk(u)
  {
    match u
    case Single(d) => DeclMeaning(d)
    case External(_, p) => [ProtoMeaning(p)]
    case Block(_, ds, _) => AllMeaning(ds)
  }

  function HeaderMeaning(us: seq<Unit>): seq<CItem>
    requires UnitsOk(us)
  {
    if us == [] then [] else UnitMeaning(us[0]) + HeaderMeaning(us[1..])
  }

  // ----- reading blocks -----

  lemma DeclOpens(d: Decl, rest: seq<Token>)
    requires DeclOk(d)
    ensures var toks := DeclTokens(d) + rest;
            && DeclTokens(d) != [] && toks[0] == DeclTokens(d)[0]
            && (if d.Directive? then toks == [LineText(d.line)] + rest else IsWord(toks[0]))
  {
    hide IsWord, BodyTokens, EnumTokens, Braced, RepeatedStar, LineText, ProtoTokens, MembersOk, EnumeratorsOk,
         DeclaratorOk, MemberTokens;
    KeywordsAreWords();
    if d.Prototype? {
      ProtoOpens(d.proto, []);
      assert ProtoTokens(d.proto) + [] == ProtoTokens(d.proto);
    }
    assert DeclTokens(d) != [];
    Front(DeclTokens(d), rest);
  }

  /** A line that stands next. */
  lemma LineStands(s: string, i: nat, l: Line, rest: seq<Token>)
    requires LineOk(l) && At(s, i, [LineText(l)] + rest)
    ensures i <= |s| && var k := Blank(s, i);
            k < |s| && s[k] == '#' && StartsWith(s, k, LineText(l)) && At(s, k + |LineText(l)|, rest)
            && LineText(l) != ""
  {
    hide Blank, Stands, LineText, StartsWith;
    var toks := [LineText(l)] + rest;
    Next(s, i, toks);
    assert toks[0] == LineText(l) && toks[1..] == rest;
    LineIsToken(l);
  }

  /** One turn of the loop over a block, on a declaration. */
  lemma BlockStep(s: string, st: State, d: Decl, rest: seq<Token>)
    requires !d.Directive? && DeclOk(d) && At(s, st.pos, DeclTokens(d) + rest)
    ensures Ok(s, st)
    ensures var r := TopDecl(s, st.(pos := Blank(s, st.pos)));
            HasRead(s, st, r, ReadDecl(d, false), rest) && ExternBody(s, st) == ExternBody(s, r)
  {
    hide At, Blank, TopDecl, InnerDecl, DeclTokens, DeclOk, ReadDecl, IsWord;
    var toks := DeclTokens(d) + rest;
    InText(s, st.pos, toks);
    DeclOpens(d, rest);
    WordIsNext(s, st.pos, toks);
    BlankIsSkipped(s, st.pos, toks);
    DeclIsRead(s, st.(pos := Blank(s, st.pos)), d, rest);
  }

  /** And on a line, which is skipped. */
  lemma BlockLine(s: string, st: State, l: Line, rest: seq<Token>)
    requires LineOk(l) && At(s, st.pos, [LineText(l)] + rest)
    ensures Ok(s, st)
    ensures var r := st.(pos := Blank(s, st.pos) + |LineText(l)|);
            Ok(s, r) && At(s, r.pos, rest) && ExternBody(s, st) == ExternBody(s, r)
  {
    hide At, Blank, LineText, LineOk, StartsWith, SkipLine, ReadIdent;
    InText(s, st.pos, [LineText(l)] + rest);
    LineStands(s, st.pos, l, rest);
    LineIsSkipped(s, Blank(s, st.pos), l);
  }

  lemma DeclReads(d: Decl)
    ensures !d.Directive? ==> ReadDecl(d, true) == ReadDecl(d, false)
    ensures d.Directive? ==> ReadDecl(d, true) == [] && ReadDecl(d, false) == ReadLine(d.line)
  {
  }

  lemma BlockCloses(s: string, st: State, semicolon: bool, rest: seq<Token>)
    requires At(s, st.pos, ["}"] + ((if semicolon then [";"] else []) + rest))
    requires !semicolon && rest != [] ==> rest[0] != "" && rest[0][0] != ';'
    ensures Ok(s, st) && HasRead(s, st, ExternBody(s, st), [], rest)
  {
    hide At, Blank, ExpectChar;
    var behind := (if semicolon then [";"] else []) + rest;
    var toks := ["}"] + behind;
    InText(s, st.pos, toks);
    assert toks[0] == "}" && toks[1..] == behind;
    SymbolIsPeeked(s, st.pos, '}', toks);
    var k := Blank(s, st.pos) + 1;
    assert st.items + [] == st.items;
    if semicolon {
      ExpectedIsRead(s, k, ';', rest);
    } else {
      assert behind == rest;
      NothingExpected(s, k, ';', rest);
    }
  }

  lemma NothingExpected(s: string, i: nat, c: char, rest: seq<Token>)
    requires At(s, i, rest) && (rest != [] ==> rest[0] != "" && rest[0][0] != c)
    ensures i <= |s| && At(s, ExpectChar(s, i, c), rest)
  {
    hide Blank, Stands;
    NextSymbol(s, i, c, rest);
  }

  lemma AllParts(ds: seq<Decl>, rest: seq<Token>)
    ensures ds == [] ==> AllTokens(ds) + rest == rest
    ensures ds != [] ==> AllTokens(ds) + rest == DeclTokens(ds[0]) + (AllTokens(ds[1..]) + rest)
  {
    hide DeclTokens;
    if ds == [] {
      assert [] + rest == rest;
    }
  }

  lemma {:induction false} BlockIsRead(s: string, st: State, ds: seq<Decl>, semicolon: bool, rest: seq<Token>)
    requires DeclsOk(ds)
    requires At(s, st.pos, AllTokens(ds) + (["}"] + ((if semicolon then [";"] else []) + rest)))
    requires !semicolon && rest != [] ==> rest[0] != "" && rest[0][0] != ';'
    ensures Ok(s, st) && HasRead(s, st, ExternBody(s, st), ReadAll(ds), rest)
    decreases |ds|
  {
    hide At, Blank, ExternBody, TopDecl, DeclTokens, AllTokens, ReadDecl, DeclOk, LineText, LineOk;
    var close := ["}"] + ((if semicolon then [";"] else []) + rest);
    AllParts(ds, close);
    if ds == [] {
      BlockCloses(s, st, semicolon, rest);
    } else {
      var more := AllTokens(ds[1..]) + close;
      DeclReads(ds[0]);
      var st' := BlockTurn(s, st, ds[0], more);
      BlockIsRead(s, st', ds[1..], semicolon, rest);
      assert st.items + ReadDecl(ds[0], true) + ReadAll(ds[1..]) == st.items + ReadAll(ds);
    }
  }

  lemma BlockTurn(s: string, st: State, d: Decl, rest: seq<Token>) returns (st': State)
    requires DeclOk(d) && At(s, st.pos, DeclTokens(d) + rest)
    ensures Ok(s, st) && Ok(s, st') && HasRead(s, st, st', ReadDecl(d, true), rest)
    ensures ExternBody(s, st) == ExternBody(s, st')
  {
    hide At, Blank, ExternBody, TopDecl, DeclTokens, ReadDecl, LineText, LineOk, MembersOk, EnumeratorsOk, ProtoOk,
         DeclaratorOk;
    DeclReads(d);
    if d.Directive? {
      DeclOpens(d, rest);
      BlockLine(s, st, d.line, rest);
      st' := st.(pos := Blank(s, st.pos) + |LineText(d.line)|);
      assert st.items + [] == st.items;
    } else {
      BlockStep(s, st, d, rest);
      st' := TopDecl(s, st.(pos := Blank(s, st.pos)));
      InText(s, st'.pos, rest);
    }
  }

  // ----- reading headers -----

  /** One turn of the main loop, on a word. */
  lemma HeaderStep(s: string, st: State, toks: seq<Token>)
    requires At(s, st.pos, toks) && toks != [] && IsWord(toks[0])
    ensures Ok(s, st) && At(s, Blank(s, st.pos), toks)
    ensures var at := st.(pos := Blank(s, st.pos)); var r := TopDecl(s, at);
            at.pos < r.pos ==> Header(s, st) == Header(s, r)
  {
    hide At, Blank, TopDecl, Preprocessor, IsWord;
    InText(s, st.pos, toks);
    WordIsNext(s, st.pos, toks);
    BlankIsSkipped(s, st.pos, toks);
  }

  lemma HeaderLine(s: string, st: State, l: Line, rest: seq<Token>)
    requires LineOk(l) && At(s, st.pos, [LineText(l)] + rest)
    ensures Ok(s, st)
    ensures var r := State(Blank(s, st.pos) + |LineText(l)|, st.items + ReadLine(l), st.errors);
            Ok(s, r) && At(s, r.pos, rest) && Header(s, st) == Header(s, r)
  {
    hide At, Blank, LineText, LineOk, StartsWith, Preprocessor, ReadLine, TopDecl;
    InText(s, st.pos, [LineText(l)] + rest);
    LineStands(s, st.pos, l, rest);
    LineIsRead(s, st.(pos := Blank(s, st.pos)), l);
    InText(s, Blank(s, st.pos) + |LineText(l)|, rest);
  }

  /** The language and where the cursor stops behind it. */
  lemma LanguageIsRead(s: string, i: nat, l: Option<string>, rest: seq<Token>)
    requires At(s, i, LanguageTokens(l) + rest) && LanguageOk(l) && rest != [] && rest[0] != "" && rest[0][0] != '"'
    ensures i <= |s|
    ensures var q := Blank(s, i); var e := if PeekIs(s, q, '"') then Advance(s, Text.Find(s, q + 1, '"'), 1) else q;
            At(s, Blank(s, e), rest) && Blank(s, Blank(s, e)) == Blank(s, e)
  {
    hide At, Blank;
    var toks := LanguageTokens(l) + rest;
    InText(s, i, toks);
    var q := Blank(s, i);
    SymbolIsPeeked(s, i, '"', toks);
    if l.Some? {
      QuotedIsRead(s, i, l.value, rest);
      BlankIsSkipped(s, q + |Quoted(l.value)|, rest);
      BlankStays(s, q + |Quoted(l.value)|);
    } else {
      assert toks == rest;
      BlankIsSkipped(s, i, rest);
      BlankStays(s, i);
    }
  }

  lemma QuotedIsRead(s: string, i: nat, t: string, rest: seq<Token>)
    requires At(s, i, [Quoted(t)] + rest) && forall k | 0 <= k < |t| :: t[k] != '"'
    ensures i <= |s| && var q := Blank(s, i); var e := q + |Quoted(t)|;
            && PeekIs(s, q, '"') && e <= |s| && At(s, e, rest) && Text.Find(s, q + 1, '"') == e - 1
  {
    hide Blank, Stands;
    var toks := [Quoted(t)] + rest;
    Next(s, i, toks);
    assert toks[0] == Quoted(t) && toks[1..] == rest;
    var q := Blank(s, i);
    var e := q + 1 + |t|;
    forall k | q + 1 <= k < e
      ensures s[k] != '"'
    {
      CharAt(s, q, Quoted(t), k - q);
    }
    CharAt(s, q, Quoted(t), |t| + 1);
    CharAt(s, q, Quoted(t), 0);
    FindsFirst(s, q + 1, '"', e);
  }

  /** Behind `extern` and the language: a brace opens a block, anything else is left. */
  lemma ExternIsRead(s: string, st: State, l: Option<string>, rest: seq<Token>)
    requires At(s, st.pos, LanguageTokens(l) + rest) && LanguageOk(l) && rest != [] && rest[0] != ""
             && rest[0][0] != '"'
    ensures Ok(s, st)
    ensures rest[0][0] != '{' ==> HasRead(s, st, ExternDecl(s, st), [], rest)
    ensures rest[0] == "{" ==> exists k: nat :: k <= |s| && At(s, k, rest[1..])
                                 && ExternDecl(s, st) == ExternBody(s, st.(pos := k))
  {
    hide At, Blank, ExternBody;
    InText(s, st.pos, LanguageTokens(l) + rest);
    LanguageIsRead(s, st.pos, l, rest);
    var q := Blank(s, st.pos);
    var k := Blank(s, if PeekIs(s, q, '"') then Advance(s, Text.Find(s, q + 1, '"'), 1) else q);
    SymbolIsPeeked(s, k, '{', rest);
    assert st.items + [] == st.items;
  }

  lemma UnitOpens(u: Unit, rest: seq<Token>)
    requires UnitOk(u)
    ensures var toks := UnitTokens(u) + rest; toks != [] && toks[0] != "" && toks[0][0] != ';'
  {
    hide DeclTokens, AllTokens, DeclOk, LineText, ProtoTokens, LanguageTokens, LanguageOk;
    if u.Single? {
      DeclOpens(u.decl, rest);
      if u.decl.Directive? {
        LineIsToken(u.decl.line);
      } else {
        assert IsIdentChar(DeclTokens(u.decl)[0][0]);
      }
    }
  }

  /** No semicolon stands first. */
  predicate NoSemicolon(rest: seq<Token>) {
    rest != [] ==> rest[0] != "" && rest[0][0] != ';'
  }

  lemma HeaderParts(us: seq<Unit>, rest: seq<Token>)
    requires UnitsOk(us) && NoSemicolon(rest)
    ensures us == [] ==> HeaderTokens(us) + rest == rest
    ensures us != [] ==> HeaderTokens(us) + rest == UnitTokens(us[0]) + (HeaderTokens(us[1..]) + rest)
    ensures NoSemicolon(HeaderTokens(us) + rest)
  {
    hide UnitTokens, UnitOk;
    if us == [] {
      assert [] + rest == rest;
    } else {
      UnitOpens(us[0], HeaderTokens(us[1..]) + rest);
    }
  }

  lemma SingleIsRead(s: string, st: State, d: Decl, rest: seq<Token>) returns (st': State)
    requires DeclOk(d) && At(s, st.pos, DeclTokens(d) + rest)
    ensures Ok(s, st) && Ok(s, st') && HasRead(s, st, st', ReadDecl(d, false), rest) && Header(s, st) == Header(s, st')
  {
    hide At, Blank, Header, TopDecl, DeclTokens, ReadDecl, LineText, LineOk, MembersOk, EnumeratorsOk, ProtoOk,
         DeclaratorOk, IsWord, InnerDecl, ReadLine;
    DeclReads(d);
    DeclOpens(d, rest);
    InText(s, st.pos, DeclTokens(d) + rest);
    if d.Directive? {
      HeaderLine(s, st, d.line, rest);
      st' := State(Blank(s, st.pos) + |LineText(d.line)|, st.items + ReadLine(d.line), st.errors);
    } else {
      HeaderStep(s, st, DeclTokens(d) + rest);
      DeclIsRead(s, st.(pos := Blank(s, st.pos)), d, rest);
      st' := TopDecl(s, st.(pos := Blank(s, st.pos)));
    }
  }

  lemma TopIsExtern(s: string, at: State, behind: seq<Token>)
    requires At(s, at.pos, ["extern"] + behind)
    ensures Ok(s, at)
    ensures var j := ReadIdent(s, at.pos).1;
            At(s, j, behind) && at.pos < j && TopDecl(s, at) == ExternDecl(s, at.(pos := j))
  {
    hide At, ReadIdent, ExternDecl, TypedefDecl, StructDecl, EnumDecl, FunctionOrSkip, IsWord;
    KeywordsAreWords();
    KeywordIsRead(s, at, "extern", behind);
  }

  /** The word `extern` at the top. */
  lemma ExternStep(s: string, st: State, behind: seq<Token>)
    requires At(s, st.pos, ["extern"] + behind)
    ensures Ok(s, st)
    ensures exists j: nat :: j <= |s| && At(s, j, behind) && Header(s, st) == Header(s, ExternDecl(s, st.(pos := j)))
  {
    hide At, Blank, Header, TopDecl, ReadIdent, ExternDecl, IsWord;
    KeywordsAreWords();
    HeaderStep(s, st, ["extern"] + behind);
    TopIsExtern(s, st.(pos := Blank(s, st.pos)), behind);
  }

  lemma ExternalIsRead(s: string, st: State, l: Option<string>, p: Proto, rest: seq<Token>) returns (st': State)
    requires LanguageOk(l) && DeclOk(Prototype(p)) && At(s, st.pos, UnitTokens(External(l, p)) + rest)
    ensures Ok(s, st) && Ok(s, st') && HasRead(s, st, st', [ReadProto(p)], rest) && Header(s, st) == Header(s, st')
  {
    hide At, Blank, Header, ReadIdent, ExternDecl, IsWord, DeclOk, ProtoTokens, LanguageTokens, LanguageOk, ReadProto;
    var proto := ProtoTokens(p) + rest;
    var behind := LanguageTokens(l) + proto;
    assert UnitTokens(External(l, p)) + rest == ["extern"] + behind;
    assert DeclTokens(Prototype(p)) == ProtoTokens(p);
    ExternStep(s, st, behind);
    var j: nat :| j <= |s| && At(s, j, behind) && Header(s, st) == Header(s, ExternDecl(s, st.(pos := j)));
    DeclOpens(Prototype(p), rest);
    WordOpens(proto);
    ExternIsRead(s, st.(pos := j), l, proto);
    var st1 := ExternDecl(s, st.(pos := j));
    assert st.items + [] == st.items;
    st' := SingleIsRead(s, st1, Prototype(p), rest);
  }

  lemma WordOpens(toks: seq<Token>)
    requires toks != [] && IsWord(toks[0])
    ensures toks[0] != "" && toks[0][0] != '"' && toks[0][0] != '{'
  {
    assert IsIdentChar(toks[0][0]);
  }

  lemma ExternBlockIsRead(s: string, st: State, l: Option<string>, ds: seq<Decl>, semicolon: bool, rest: seq<Token>)
    returns (st': State)
    requires LanguageOk(l) && DeclsOk(ds) && At(s, st.pos, UnitTokens(Block(l, ds, semicolon)) + rest)
    requires rest != [] ==> rest[0] != "" && rest[0][0] != ';'
    ensures Ok(s, st) && Ok(s, st') && HasRead(s, st, st', ReadAll(ds), rest) && Header(s, st) == Header(s, st')
  {
    hide At, Blank, Header, ReadIdent, ExternDecl, IsWord, AllTokens, LanguageTokens, LanguageOk, ReadAll, ExternBody,
         DeclsOk;
    var tail: seq<Token> := if semicolon then [";"] else [];
    var body := AllTokens(ds) + (["}"] + (tail + rest));
    var block := ["{"] + body;
    assert AllTokens(ds) + (["}"] + tail) + rest == body;
    assert UnitTokens(Block(l, ds, semicolon)) + rest == ["extern"] + (LanguageTokens(l) + block);
    ExternStep(s, st, LanguageTokens(l) + block);
    var j: nat :| j <= |s| && At(s, j, LanguageTokens(l) + block)
      && Header(s, st) == Header(s, ExternDecl(s, st.(pos := j)));
    assert block[0] == "{" && block[1..] == body;
    ExternIsRead(s, st.(pos := j), l, block);
    var k: nat :| k <= |s| && At(s, k, body) && ExternDecl(s, st.(pos := j)) == ExternBody(s, st.(pos := k));
    BlockIsRead(s, st.(pos := k), ds, semicolon, rest);
    st' := ExternBody(s, st.(pos := k));
  }

  lemma UnitIsRead(s: string, st: State, u: Unit, rest: seq<Token>) returns (st': State)
    requires UnitOk(u) && At(s, st.pos, UnitTokens(u) + rest) && (rest != [] ==> rest[0] != "" && rest[0][0] != ';')
    ensures Ok(s, st) && Ok(s, st') && HasRead(s, st, st', ReadUnit(u), rest) && Header(s, st) == Header(s, st')
  {
    hide At, Header, DeclTokens, ReadDecl, ReadAll, DeclOk, LanguageOk, DeclsOk, HasRead;
    match u
    case Single(d) => st' := SingleIsRead(s, st, d, rest);
    case External(l, p) => st' := ExternalIsRead(s, st, l, p, rest);
    case Block(l, ds, semicolon) => st' := ExternBlockIsRead(s, st, l, ds, semicolon, rest);
  }

  lemma HeaderEnds(s: string, st: State)
    requires At(s, st.pos, [])
    ensures Ok(s, st) && Header(s, st) == State(|s|, st.items, st.errors)
  {
    hide Blank;
  }

  /** Units standing at the cursor are read, up to what stands behind them. */
  lemma {:induction false} UnitsBefore(s: string, st: State, us: seq<Unit>, rest: seq<Token>) returns (st': State)
    requires UnitsOk(us) && At(s, st.pos, HeaderTokens(us) + rest) && NoSemicolon(rest)
    ensures Ok(s, st) && Ok(s, st') && HasRead(s, st, st', ReadHeader(us), rest) && Header(s, st) == Header(s, st')
    decreases |us|
  {
    hide At, Header, UnitTokens, HeaderTokens, ReadUnit, UnitOk;
    HeaderParts(us, rest);
    if us == [] {
      InText(s, st.pos, rest);
      st' := st;
      assert st.items + [] == st.items;
    } else {
      HeaderParts(us[1..], rest);
      st' := UnitIsRead(s, st, us[0], HeaderTokens(us[1..]) + rest);
      st' := UnitsBefore(s, st', us[1..], rest);
      assert st.items + ReadUnit(us[0]) + ReadHeader(us[1..]) == st.items + ReadHeader(us);
    }
  }

  lemma UnitsAreRead(s: string, st: State, us: seq<Unit>)
    requires UnitsOk(us) && At(s, st.pos, HeaderTokens(us))
    ensures Ok(s, st) && Header(s, st) == State(|s|, st.items + ReadHeader(us), st.errors)
  {
    hide At, Header, HeaderTokens, ReadHeader, UnitOk;
    assert HeaderTokens(us) + [] == HeaderTokens(us);
    var st' := UnitsBefore(s, st, us, []);
    HeaderEnds(s, st');
  }

  // ----- tokens are well formed -----

  lemma BothOk(a: seq<Token>, b: seq<Token>)
    requires TokensOk(a) && TokensOk(b)
    ensures TokensOk(a + b)
  {
    hide TokenOk;
  }

  lemma WordIsToken(w: string)
    requires IsWord(w)
    ensures TokensOk([w])
  {
    assert IsIdentChar(w[0]);
  }

  lemma InnerIsOk(toks: seq<Token>)
    requires AllInner(toks)
    ensures TokensOk(toks)
  {
    hide IsWord, TokenOk;
    SymbolsAreOk();
    forall k | 0 <= k < |toks|
      ensures TokenOk(toks[k])
    {
      assert Inner(toks[k]);
      if IsWord(toks[k]) {
        WordIsToken(toks[k]);
        assert TokenOk([toks[k]][0]);
      }
    }
  }

  lemma SymbolsAreOk()
    ensures TokenOk("*") && TokenOk("[") && TokenOk("]") && TokenOk("(") && TokenOk(")") && TokenOk("{")
    ensures TokenOk("}") && TokenOk(";") && TokenOk(",") && TokenOk("=") && TokenOk("...")
    ensures TokenOk("__attribute__")
  {
  }

  lemma MaybeIsOk(w: Option<string>)
    requires MaybeWord(w)
    ensures TokensOk(Maybe(w))
  {
    if w.Some? {
      WordIsToken(w.value);
    }
    hide IsWord, TokenOk;
  }

  lemma {:induction false} ListIsOk(ps: seq<ParamText>, variadic: bool)
    requires ParamsOk(ps)
    ensures TokensOk(ListTokens(ps, variadic))
    decreases |ps|
  {
    hide ParamTokens, TokenOk, ParamOk;
    SymbolsAreOk();
    if ps != [] {
      ParamIsInner(ps[0]);
      InnerIsOk(ParamTokens(ps[0]));
      ListIsOk(ps[1..], variadic);
      BothOk([","], ListTokens(ps[1..], variadic));
      BothOk(ParamTokens(ps[0]), [","] + ListTokens(ps[1..], variadic));
    }
  }

  lemma ProtoIsOk(p: Proto)
    requires ProtoOk(p)
    ensures TokensOk(ProtoTokens(p))
  {
    hide TypeTokensOf, ListTokens, TokenOk, TypeOk, ParamsOk, IsWord, IsTypeKeyword, IsQualifier, GroupText, Nest.Valid;
    SymbolsAreOk();
    if p.attribute.Some? {
      GroupOpens(p.attribute.value);
    }
    WordIsToken(p.name);
    TypeIsInner(p.ret);
    InnerIsOk(TypeTokensOf(p.ret));
    ListIsOk(p.params, p.variadic);
    var tail := ProtoTail(p);
    assert TokensOk(tail);
    BothOk([")"], tail);
    BothOk(ListTokens(p.params, p.variadic), [")"] + tail);
    BothOk(["("], ListTokens(p.params, p.variadic) + ([")"] + tail));
    BothOk([p.name], ["("] + (ListTokens(p.params, p.variadic) + ([")"] + tail)));
    BothOk(TypeTokensOf(p.ret), [p.name] + (["("] + (ListTokens(p.params, p.variadic) + ([")"] + tail))));
  }

  lemma MemberIsOk(d: Declarator)
    requires DeclaratorOk(d)
    ensures TokensOk(MemberTokens(d))
  {
    hide TypeTokensOf, BracketTokens, TokenOk, TypeOk, IsName;
    SymbolsAreOk();
    TypeIsInner(d.ty);
    DeclaratorIsInner(Some(d.name), d.brackets);
    var declarator := DeclaratorTokens(Some(d.name), d.brackets);
    InnerIsOk(TypeTokensOf(d.ty));
    InnerIsOk(declarator);
    BothOk(declarator, [";"]);
    BothOk(TypeTokensOf(d.ty), declarator + [";"]);
    assert declarator + [";"] == [d.name] + (BracketTokens(d.brackets) + [";"]);
  }

  lemma {:induction false} BodyIsOk(ms: seq<Declarator>)
    requires MembersOk(ms)
    ensures TokensOk(BodyTokens(ms))
    decreases |ms|
  {
    hide MemberTokens, TokenOk, DeclaratorOk;
    if ms != [] {
      MemberIsOk(ms[0]);
      BodyIsOk(ms[1..]);
      BothOk(MemberTokens(ms[0]), BodyTokens(ms[1..]));
    }
  }

  lemma {:induction false} EnumIsOk(vs: seq<Enumerator>, comma: bool)
    requires EnumeratorsOk(vs)
    ensures TokensOk(EnumTokens(vs, comma))
    decreases |vs|
  {
    hide TokenOk, IsWord, Numeral.Valid, Numeral.Text;
    SymbolsAreOk();
    if vs != [] {
      var value := ValueTokens(vs[0].value);
      var sep: seq<Token> := if |vs| > 1 || comma then [","] else [];
      if vs[0].value.Some? {
        NumeralIsToken(vs[0].value.value);
      }
      assert TokensOk(value) && TokensOk(sep);
      WordIsToken(vs[0].name);
      EnumIsOk(vs[1..], comma);
      BothOk(sep, EnumTokens(vs[1..], comma));
      BothOk(value, sep + EnumTokens(vs[1..], comma));
      BothOk([vs[0].name], value + (sep + EnumTokens(vs[1..], comma)));
    }
  }

  lemma BracedIsOk(body: seq<Token>, behind: seq<Token>)
    requires TokensOk(body) && TokensOk(behind)
    ensures TokensOk(Braced(body, behind))
  {
    hide TokenOk;
    SymbolsAreOk();
    BothOk(behind, [";"]);
    BothOk(["}"], behind + [";"]);
    BothOk(body, ["}"] + (behind + [";"]));
    BothOk(["{"], body + (["}"] + (behind + [";"])));
  }

  /** A keyword in front. */
  lemma KeywordIsOk(w: string, toks: seq<Token>)
    requires IsWord(w) && TokensOk(toks)
    ensures TokensOk([w] + toks)
  {
    hide TokenOk, IsWord;
    WordIsToken(w);
    BothOk([w], toks);
  }

  lemma TypedefIsOk(d: Decl)
    requires DeclOk(d) && (d.TypedefOf? || d.TypedefStructOf? || d.TypedefEnumOf?)
    ensures TokensOk(DeclTokens(d))
  {
    hide BodyTokens, EnumTokens, MemberTokens, Braced, RepeatedStar, TokenOk, MembersOk, EnumeratorsOk, DeclaratorOk,
         IsWord, TokensOk;
    KeywordsAreWords();
    match d
    case TypedefOf(t) =>
      MemberIsOk(t);
      KeywordIsOk("typedef", MemberTokens(t));
    case TypedefStructOf(t, ms, stars, a) =>
      StarsAreOk(stars);
      WordIsToken(a);
      BothOk(RepeatedStar(stars), [a]);
      BodyIsOk(ms);
      BracedIsOk(BodyTokens(ms), RepeatedStar(stars) + [a]);
      MaybeIsOk(t);
      BothOk(Maybe(t), Braced(BodyTokens(ms), RepeatedStar(stars) + [a]));
      KeywordIsOk("struct", Maybe(t) + Braced(BodyTokens(ms), RepeatedStar(stars) + [a]));
      KeywordIsOk("typedef", ["struct"] + (Maybe(t) + Braced(BodyTokens(ms), RepeatedStar(stars) + [a])));
    case TypedefEnumOf(t, vs, comma, a) =>
      WordIsToken(a);
      EnumIsOk(vs, comma);
      BracedIsOk(EnumTokens(vs, comma), [a]);
      MaybeIsOk(t);
      BothOk(Maybe(t), Braced(EnumTokens(vs, comma), [a]));
      KeywordIsOk("enum", Maybe(t) + Braced(EnumTokens(vs, comma), [a]));
      KeywordIsOk("typedef", ["enum"] + (Maybe(t) + Braced(EnumTokens(vs, comma), [a])));
    case _ =>
  }

  lemma StarsAreOk(n: nat)
    ensures TokensOk(RepeatedStar(n))
  {
    SymbolsAreOk();
    hide TokenOk;
  }

  lemma SemicolonIsOk()
    ensures TokensOk([";"])
  {
  }

  lemma DeclIsOk(d: Decl)
    requires DeclOk(d)
    ensures TokensOk(DeclTokens(d))
  {
    hide BodyTokens, EnumTokens, MemberTokens, Braced, RepeatedStar, TokenOk, MembersOk, EnumeratorsOk, DeclaratorOk,
         IsWord, TokensOk, ProtoTokens, LineText, ProtoOk;
    KeywordsAreWords();
    match d
    case Prototype(p) => ProtoIsOk(p);
    case StructOf(n, ms, v) =>
      BodyIsOk(ms);
      MaybeIsOk(v);
      BracedIsOk(BodyTokens(ms), Maybe(v));
      KeywordIsOk(n, Braced(BodyTokens(ms), Maybe(v)));
      KeywordIsOk("struct", [n] + Braced(BodyTokens(ms), Maybe(v)));
    case EnumOf(n, vs, comma, v) =>
      EnumIsOk(vs, comma);
      MaybeIsOk(v);
      BracedIsOk(EnumTokens(vs, comma), Maybe(v));
      KeywordIsOk(n, Braced(EnumTokens(vs, comma), Maybe(v)));
      KeywordIsOk("enum", [n] + Braced(EnumTokens(vs, comma), Maybe(v)));
    case Forward(k, t) =>
      SemicolonIsOk();
      KeywordIsOk(t, [";"]);
      KeywordIsOk(k, [t] + [";"]);
    case Directive(l) => OneIsOk(l);
    case _ => TypedefIsOk(d);
  }

  lemma OneIsOk(l: Line)
    ensures TokensOk([LineText(l)])
  {
    LineIsToken(l);
    hide LineText;
  }

  lemma {:induction false} AllIsOk(ds: seq<Decl>)
    requires DeclsOk(ds)
    ensures TokensOk(AllTokens(ds))
    decreases |ds|
  {
    hide DeclTokens, TokenOk, DeclOk;
    if ds != [] {
      DeclIsOk(ds[0]);
      AllIsOk(ds[1..]);
      BothOk(DeclTokens(ds[0]), AllTokens(ds[1..]));
    }
  }

  lemma LanguageIsOk(l: Option<string>)
    ensures TokensOk(LanguageTokens(l))
  {
  }

  lemma BraceIsOk(semicolon: bool)
    ensures TokensOk(["{"]) && TokensOk(["}"] + (if semicolon then [";"] else []))
  {
  }

  lemma UnitIsOk(u: Unit)
    requires UnitOk(u)
    ensures TokensOk(UnitTokens(u))
  {
    hide DeclTokens, AllTokens, TokensOk, DeclOk, DeclsOk, ProtoTokens, LanguageTokens, LanguageOk, IsWord;
    KeywordsAreWords();
    match u
    case Single(d) => DeclIsOk(d);
    case External(l, p) =>
      DeclIsOk(Prototype(p));
      assert DeclTokens(Prototype(p)) == ProtoTokens(p) by {
        PrototypeTokens(p);
      }
      LanguageIsOk(l);
      BothOk(LanguageTokens(l), ProtoTokens(p));
      KeywordIsOk("extern", LanguageTokens(l) + ProtoTokens(p));
    case Block(l, ds, semicolon) =>
      var close := ["}"] + (if semicolon then [";"] else []);
      BraceIsOk(semicolon);
      AllIsOk(ds);
      LanguageIsOk(l);
      BothOk(AllTokens(ds), close);
      BothOk(["{"], AllTokens(ds) + close);
      BothOk(LanguageTokens(l), ["{"] + (AllTokens(ds) + close));
      KeywordIsOk("extern", LanguageTokens(l) + (["{"] + (AllTokens(ds) + close)));
  }

  lemma PrototypeTokens(p: Proto)
    ensures DeclTokens(Prototype(p)) == ProtoTokens(p)
  {
  }

  lemma {:induction false} HeaderIsOk(us: seq<Unit>)
    requires UnitsOk(us)
    ensures TokensOk(HeaderTokens(us))
    decreases |us|
  {
    hide UnitTokens, TokenOk, UnitOk;
    if us != [] {
      UnitIsOk(us[0]);
      HeaderIsOk(us[1..]);
      BothOk(UnitTokens(us[0]), HeaderTokens(us[1..]));
    }
  }

  // ----- the whole text -----

  /** The text of a header. */
  function HeaderText(us: seq<Unit>, gaps: seq<Gap>): string
    requires GapsOk(HeaderTokens(us), gaps)
  {
    Layout(HeaderTokens(us), gaps)
  }

  /** Every header, however it is laid out, is read in order and without errors. */
  lemma DeclarationsAreParsed(us: seq<Unit>, gaps: seq<Gap>)
    requires UnitsOk(us) && GapsOk(HeaderTokens(us), gaps)
    ensures ParseHeader(HeaderText(us, gaps)) == Items(ReadHeader(us))
  {
    hide Header, At, HeaderTokens, TokensOk, GapsOk, Layout, UnitsOk, ReadHeader;
    var s := HeaderText(us, gaps);
    HeaderIsOk(us);
    assert s[0..] == s;
    LayoutStands(s, 0, HeaderTokens(us), gaps);
    UnitsAreRead(s, State(0, [], []), us);
    assert [] + ReadHeader(us) == ReadHeader(us);
  }

  /** One blank everywhere is a layout. */
  lemma BlanksAreGaps(us: seq<Unit>)
    ensures GapsOk(HeaderTokens(us), seq(|HeaderTokens(us)| + 1, _ => [Space(' ')]))
  {
    hide HeaderTokens, EndsInWord, StartsWord;
    assert GapOk([Space(' ')]);
  }

  // ----- when a header says what was meant -----

  /** Nothing of the declaration is lost or changed: its types are spelled in order, its numbers
      are read alike, and its constants stay and stand in no block. */
  predicate DeclIsUnderstood(d: Decl, inBlock: bool)
    requires DeclOk(d)
  {
    match d
    case Prototype(p) => ProtoIsUnderstood(p)
    case StructOf(_, ms, _) => FieldsAreUnderstood(ms)
    case EnumOf(_, vs, _, _) => EnumeratorsAlike(vs)
    case Forward(_, _) => true
    case TypedefOf(t) => DeclaratorIsUnderstood(t)
    case TypedefStructOf(_, ms, _, _) => FieldsAreUnderstood(ms)
    case TypedefEnumOf(_, vs, _, _) => EnumeratorsAlike(vs)
    case Directive(l) => l.Constant? && IsSimpleConstant(l.value) ==> !inBlock && Survives(l.value)
  }

  lemma SameTail(a: CItem, b: CItem, tail: seq<CItem>)
    ensures [a] + tail == [b] + tail <==> a == b
  {
    assert ([a] + tail)[0] == a && ([b] + tail)[0] == b;
  }

  lemma DeclIsReadExactly(d: Decl, inBlock: bool)
    requires DeclOk(d)
    ensures |ReadDecl(d, inBlock)| <= |DeclMeaning(d)|
    ensures ReadDecl(d, inBlock) == DeclMeaning(d) <==> DeclIsUnderstood(d, inBlock)
  {
    hide ProtoOk, ReadProto, ProtoMeaning, ProtoIsUnderstood, MembersOk, ReadFields, FieldsMeaning, FieldsAreUnderstood,
         EnumeratorsOk, ReadEnumerators, EnumeratorsMeaning, EnumeratorsAlike, DeclaratorOk, ReadDeclarator,
         DeclaratorMeaning, DeclaratorIsUnderstood, LineOk, IsSimpleConstant, StripNumericSuffix, Survives, IsWord,
         Pointers, AliasOf;
    match d
    case Prototype(p) =>
      PrototypeIsReadExactly(p);
      SameTail(ReadProto(p), ProtoMeaning(p), []);
    case StructOf(n, ms, _) =>
      FieldsAreReadExactly(ms);
      SameTail(Struct(n, ReadFields(ms)), Struct(n, FieldsMeaning(ms)), []);
    case EnumOf(n, vs, _, _) =>
      EnumeratorsAreReadExactly(vs);
      SameTail(Enum(n, ReadEnumerators(vs)), Enum(n, EnumeratorsMeaning(vs)), []);
    case Forward(_, _) =>
    case TypedefOf(t) =>
      DeclaratorIsReadExactly(t);
      SameTail(Typedef(t.name, ReadDeclarator(t)), Typedef(t.name, DeclaratorMeaning(t)), []);
    case TypedefStructOf(t, ms, stars, a) =>
      FieldsAreReadExactly(ms);
      SameTail(Struct(TagOr(t, a), ReadFields(ms)), Struct(TagOr(t, a), FieldsMeaning(ms)),
               AliasOf(a, stars, TagOr(t, a)));
    case TypedefEnumOf(t, vs, _, a) =>
      EnumeratorsAreReadExactly(vs);
      SameTail(Enum(TagOr(t, a), ReadEnumerators(vs)), Enum(TagOr(t, a), EnumeratorsMeaning(vs)),
               AliasOf(a, 0, TagOr(t, a)));
    case Directive(l) => LineIsReadExactly(l);
  }

  /** Lists that are no longer part by part are equal exactly if their parts are. */
  lemma EqualParts(a: seq<CItem>, b: seq<CItem>, a': seq<CItem>, b': seq<CItem>)
    requires |a| <= |a'| && |b| <= |b'|
    ensures a + b == a' + b' <==> a == a' && b == b'
  {
    if a + b == a' + b' {
      assert |a + b| == |a' + b'|;
      assert a == (a + b)[..|a|] && a' == (a' + b')[..|a|];
      assert b == (a + b)[|a|..] && b' == (a' + b')[|a|..];
    }
  }

  lemma {:induction false} AllAreReadExactly(ds: seq<Decl>)
    requires DeclsOk(ds)
    ensures |ReadAll(ds)| <= |AllMeaning(ds)|
    ensures ReadAll(ds) == AllMeaning(ds) <==> forall k | 0 <= k < |ds| :: DeclIsUnderstood(ds[k], true)
    decreases |ds|
  {
    hide DeclOk, ReadDecl, DeclMeaning, DeclIsUnderstood;
    if ds != [] {
      DeclIsReadExactly(ds[0], true);
      AllAreReadExactly(ds[1..]);
      EqualParts(ReadDecl(ds[0], true), ReadAll(ds[1..]), DeclMeaning(ds[0]), AllMeaning(ds[1..]));
      assert forall k | 0 < k < |ds| :: ds[k] == ds[1..][k - 1];
    }
  }

  predicate UnitIsUnderstood(u: Unit)
    requires UnitOk(u)
  {
    match u
    case Single(d) => DeclIsUnderstood(d, false)
    case External(_, p) => ProtoIsUnderstood(p)
    case Block(_, ds, _) => forall k | 0 <= k < |ds| :: DeclIsUnderstood(ds[k], true)
  }

  lemma UnitIsReadExactly(u: Unit)
    requires UnitOk(u)
    ensures |ReadUnit(u)| <= |UnitMeaning(u)|
    ensures ReadUnit(u) == UnitMeaning(u) <==> UnitIsUnderstood(u)
  {
    hide ReadProto, ProtoMeaning, ProtoIsUnderstood, ProtoOk, ReadDecl, DeclMeaning, DeclIsUnderstood, ReadAll,
         AllMeaning, LanguageOk;
    match u
    case Single(d) => DeclIsReadExactly(d, false);
    case External(_, p) =>
      PrototypeIsReadExactly(p);
      SameTail(ReadProto(p), ProtoMeaning(p), []);
    case Block(_, ds, _) => AllAreReadExactly(ds);
  }

  lemma {:induction false} HeaderIsReadExactly(us: seq<Unit>)
    requires UnitsOk(us)
    ensures |ReadHeader(us)| <= |HeaderMeaning(us)|
    ensures ReadHeader(us) == HeaderMeaning(us) <==> forall k | 0 <= k < |us| :: UnitIsUnderstood(us[k])
    decreases |us|
  {
    hide UnitOk, ReadUnit, UnitMeaning, UnitIsUnderstood;
    if us != [] {
      UnitIsReadExactly(us[0]);
      HeaderIsReadExactly(us[1..]);
      EqualParts(ReadUnit(us[0]), ReadHeader(us[1..]), UnitMeaning(us[0]), HeaderMeaning(us[1..]));
      assert forall k | 0 < k < |us| :: us[k] == us[1..][k - 1];
    }
  }

  /** A header says to the parser what it says in C exactly if every unit is understood. */
  lemma DeclarationsRoundTripExactly(us: seq<Unit>, gaps: seq<Gap>)
    requires UnitsOk(us) && GapsOk(HeaderTokens(us), gaps)
    ensures ParseHeader(HeaderText(us, gaps)) == Items(HeaderMeaning(us)) <==>
              forall k | 0 <= k < |us| :: UnitIsUnderstood(us[k])
  {
    hide ParseHeader, HeaderText, HeaderTokens, UnitOk, UnitIsUnderstood, ReadHeader, HeaderMeaning, GapsOk;
    DeclarationsAreParsed(us, gaps);
    HeaderIsReadExactly(us);
  }
}
