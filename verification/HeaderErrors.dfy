/** What the header parser (compiler/crates/kryos-bindgen/src/c_parser.rs) drops or rejects:
    prototypes that start with a tag, and structs and enums without a name. */
module HeaderErrors {
  import opened Wrappers
  import opened HeaderGrammar
  import opened HeaderLayout
  import opened PrototypeRoundTrip
  import opened EnumRoundTrip
  import opened DeclarationRoundTrip
  import Text

  // ----- prototypes that start with a tag -----

  lemma ThirdHasNoBrace(p: Proto)
    requires ProtoOk(p) && OpensWithTag(p.ret)
    ensures var toks := ProtoTokens(p);
            |toks| >= 3 && toks[0] == p.ret.base.keyword && toks[1] == p.ret.base.tag && NoBrace(toks[2])
  {
    hide ListTokens, ProtoTail, NoBrace, Inner, IsTypeKeyword, IsQualifier, StarTokens, IsWord;
    var ty := TypeTokensOf(p.ret);
    TypeIsInner(p.ret);
    var more := BehindTokens(p.ret.base) + StarTokens(p.ret.stars);
    assert ty == [p.ret.base.keyword] + ([p.ret.base.tag] + more);
    assert |ty| == 2 + |more|;
    if more != [] {
      assert Inner(ty[2]);
      InnerOpensNoBrace(ty[2]);
    } else {
      InnerWord(p.name);
    }
  }

  lemma InnerWord(w: string)
    requires IsWord(w)
    ensures NoBrace(w)
  {
    InnerOpensNoBrace(w);
  }

  /** A prototype whose type starts with `struct` or `enum` is dropped. */
  lemma TagPrototypeIsDropped(s: string, st: State, p: Proto, rest: seq<Token>)
    requires ProtoOk(p) && OpensWithTag(p.ret) && At(s, st.pos, ProtoTokens(p) + rest)
    ensures Ok(s, st) && TopDecl(s, st).items == InnerDecl(s, st).items == st.items
  {
    hide At, Blank, ReadIdent, ProtoTokens, IsTypeKeyword, IsQualifier, IsWord, NoBrace, SkipPast, ExternDecl,
         TypedefDecl, FunctionOrSkip;
    var toks := ProtoTokens(p) + rest;
    ThirdHasNoBrace(p);
    KeywordsAreWords();
    InText(s, st.pos, toks);
    WordIsRead(s, st.pos, toks);
    var j := ReadIdent(s, st.pos).1;
    BlankIsSkipped(s, j, toks[1..]);
    WordIsRead(s, Blank(s, j), toks[1..]);
    var k := ReadIdent(s, Blank(s, j)).1;
    assert toks[1..][1..] == toks[2..] && toks[2..][0] == ProtoTokens(p)[2];
    NoBraceIsPeeked(s, k, toks[2..]);
  }

  lemma NoBraceIsPeeked(s: string, i: nat, toks: seq<Token>)
    requires At(s, i, toks) && toks != [] && NoBrace(toks[0])
    ensures i <= |s| && !PeekIs(s, Blank(s, i), '{')
  {
    hide At, Blank, IsWord;
    InText(s, i, toks);
    SymbolIsPeeked(s, i, '{', toks);
  }

  // ----- errors -----

  lemma {:induction false} FieldsKeepErrors(s: string, i: nat, fields: seq<CField>, errors: seq<string>)
    requires i <= |s|
    ensures errors <= StructFields(s, i, fields, errors).2
    decreases |s| - i
  {
    hide Blank, ParseType, ReadIdent, ArraySuffix, ExpectChar;
    var k := Blank(s, i);
    if !PeekIs(s, k, '}') && k < |s| {
      var (ty, j) := ParseType(s, k);
      if ty.None? {
        FieldsKeepErrors(s, Advance(s, Text.Find(s, j, ';'), 1), fields, errors);
      } else {
        var (name, m) := ReadIdent(s, Blank(s, j));
        var (final, n) := ArraySuffix(s, m, ty.value);
        if name.None? {
          FieldsKeepErrors(s, ExpectChar(s, m, ';'), fields, errors);
        } else {
          FieldsKeepErrors(s, ExpectChar(s, n, ';'), fields + [CField(name.value, final)], errors);
        }
      }
    }
  }

  lemma {:induction false} VariantsKeepErrors(s: string, i: nat, variants: seq<Variant>, errors: seq<string>)
    requires i <= |s|
    ensures errors <= EnumVariants(s, i, variants, errors).2
    decreases |s| - i
  {
    hide Blank, ReadIdent, VariantValue;
    var k := Blank(s, i);
    if !PeekIs(s, k, '}') && k < |s| {
      var (name, j) := ReadIdent(s, k);
      if name.None? {
        VariantsKeepErrors(s, Advance(s, j, 1), variants, errors);
      } else {
        var (value, e) := VariantValue(s, j);
        VariantsKeepErrors(s, e, variants + [Variant(name.value, value)], errors);
      }
    }
  }

  lemma {:induction false} ParamsKeepErrors(s: string, i: nat, params: seq<CParam>, errors: seq<string>)
    requires i <= |s|
    ensures errors <= FunctionParams(s, i, params, errors).errors
    decreases |s| - i
  {
    hide Blank, ParamAt, VoidClose, StartsWith;
    var (params', e) := ParamAt(s, Blank(s, i), params);
    if e > i {
      ParamsKeepErrors(s, e, params', errors);
    }
  }

  lemma FunctionKeepsErrors(s: string, st: State)
    requires Ok(s, st)
    ensures st.errors <= FunctionOrSkip(s, st).errors
  {
    hide Blank, ParseType, ReadIdent, FunctionParams, ExpectChar, SkipAttributes, SkipPast;
    var (ty, j) := ParseType(s, st.pos);
    var n := Blank(s, ReadIdent(s, Blank(s, j)).1);
    if n < |s| {
      ParamsKeepErrors(s, n + 1, [], st.errors);
    }
  }

  lemma StructKeepsErrors(s: string, st: State)
    requires Ok(s, st)
    ensures st.errors <= StructDecl(s, st).errors && st.errors <= EnumDecl(s, st).errors
  {
    hide Blank, ReadIdent, StructFields, EnumVariants, ExpectChar, SkipPast;
    var k := Blank(s, ReadIdent(s, Blank(s, st.pos)).1);
    if k < |s| {
      FieldsKeepErrors(s, k + 1, [], st.errors);
      VariantsKeepErrors(s, k + 1, [], st.errors);
    }
  }

  lemma TypedefKeepsErrors(s: string, st: State)
    requires Ok(s, st)
    ensures st.errors <= TypedefDecl(s, st).errors
  {
    hide Blank, ReadIdent, StructFields, EnumVariants, ExpectChar, SkipPast, ParseType, ArraySuffix, SkipStars,
         Pointers;
    var j := ReadIdent(s, Blank(s, st.pos)).1;
    var k := Blank(s, ReadIdent(s, Blank(s, j)).1);
    if k < |s| {
      FieldsKeepErrors(s, k + 1, [], st.errors);
      VariantsKeepErrors(s, k + 1, [], st.errors);
    }
  }

  lemma InnerKeepsErrors(s: string, st: State)
    requires Ok(s, st)
    ensures st.errors <= InnerDecl(s, st).errors
  {
    hide ReadIdent, TypedefDecl, StructDecl, EnumDecl, FunctionOrSkip, SkipLine;
    FunctionKeepsErrors(s, st);
    var j := ReadIdent(s, st.pos).1;
    StructKeepsErrors(s, st.(pos := j));
    TypedefKeepsErrors(s, st.(pos := j));
  }

  lemma {:induction false} BlockKeepsErrors(s: string, st: State)
    requires Ok(s, st)
    ensures st.errors <= ExternBody(s, st).errors
    decreases |s| - st.pos
  {
    hide Blank, InnerDecl, ExpectChar, SkipLine;
    var k := Blank(s, st.pos);
    if !PeekIs(s, k, '}') && k < |s| {
      InnerKeepsErrors(s, st.(pos := k));
      BlockKeepsErrors(s, Guard(s, k, InnerDecl(s, st.(pos := k))));
    }
  }

  lemma TopKeepsErrors(s: string, st: State)
    requires Ok(s, st)
    ensures st.errors <= TopDecl(s, st).errors
  {
    hide ReadIdent, Blank, TypedefDecl, StructDecl, EnumDecl, FunctionOrSkip, SkipLine, ExternBody, InnerDecl;
    FunctionKeepsErrors(s, st);
    var j := ReadIdent(s, st.pos).1;
    StructKeepsErrors(s, st.(pos := j));
    TypedefKeepsErrors(s, st.(pos := j));
    var q := Blank(s, j);
    var k := Blank(s, if PeekIs(s, q, '"') then Advance(s, Text.Find(s, q + 1, '"'), 1) else q);
    if k < |s| {
      BlockKeepsErrors(s, st.(pos := k + 1));
    }
  }

  lemma LineKeepsErrors(s: string, st: State)
    requires Ok(s, st) && st.pos < |s|
    ensures Preprocessor(s, st).errors == st.errors
  {
    hide ReadIdent, SkipSpace, SkipLine, MacroBody, IsSimpleConstant, StripNumericSuffix;
  }

  /** An error once reported stays reported. */
  lemma {:induction false} ErrorsRemain(s: string, st: State)
    requires Ok(s, st)
    ensures st.errors <= Header(s, st).errors
    decreases |s| - st.pos
  {
    hide Blank, TopDecl, Preprocessor, SkipLine;
    var k := Blank(s, st.pos);
    if k < |s| {
      if s[k] == '#' {
        LineKeepsErrors(s, st.(pos := k));
        ErrorsRemain(s, Guard(s, k, Preprocessor(s, st.(pos := k))));
      } else {
        TopKeepsErrors(s, st.(pos := k));
        ErrorsRemain(s, Guard(s, k, TopDecl(s, st.(pos := k))));
      }
    }
  }

  /** `struct {` or `enum {`. */
  lemma AnonymousIsAnError(s: string, st: State, keyword: string, rest: seq<Token>)
    requires (keyword == "struct" || keyword == "enum") && At(s, st.pos, [keyword] + (["{"] + rest))
    ensures Ok(s, st) && st.errors < Header(s, st).errors
  {
    hide At, Blank, Header, ReadIdent, ExpectChar, SkipPast, IsWord, ExternDecl, TypedefDecl, FunctionOrSkip;
    KeywordsAreWords();
    var behind := ["{"] + rest;
    HeaderStep(s, st, [keyword] + behind);
    var at := st.(pos := Blank(s, st.pos));
    KeywordIsRead(s, at, keyword, behind);
    var j := ReadIdent(s, at.pos).1;
    BlankIsSkipped(s, j, behind);
    assert behind[0] == "{" && !StartsWord("{");
    NoWordIsRead(s, Blank(s, j), behind);
    ErrorsRemain(s, TopDecl(s, at));
  }

  /** A header that goes on with a struct or an enum without a name, wherever it does, is rejected. */
  lemma AnonymousTagIsRejected(us: seq<Unit>, keyword: string, rest: seq<Token>, gaps: seq<Gap>)
    requires UnitsOk(us) && TokensOk(rest) && (keyword == "struct" || keyword == "enum")
    requires GapsOk(HeaderTokens(us) + ([keyword] + (["{"] + rest)), gaps)
    ensures ParseHeader(Layout(HeaderTokens(us) + ([keyword] + (["{"] + rest)), gaps)).Errors?
  {
    hide At, Header, HeaderTokens, UnitOk, TokenOk, IsWord, GapOk, Layout, EndsInWord, StartsWord;
    var behind := [keyword] + (["{"] + rest);
    var toks := HeaderTokens(us) + behind;
    var s := Layout(toks, gaps);
    HeaderIsOk(us);
    KeywordsAreWords();
    SymbolsAreOk();
    BothOk(["{"], rest);
    KeywordIsOk(keyword, ["{"] + rest);
    BothOk(HeaderTokens(us), behind);
    assert s[0..] == s;
    LayoutStands(s, 0, toks, gaps);
    var st' := UnitsBefore(s, State(0, [], []), us, behind);
    AnonymousIsAnError(s, st', keyword, rest);
  }
}
