/** Members of C structs: what the header parser (compiler/crates/kryos-bindgen/src/c_parser.rs
    `parse_struct_fields`) reads in a body of declarators. */
module StructRoundTrip {
  import opened Wrappers
  import opened HeaderGrammar
  import opened HeaderLayout
  import opened TypeSpellings
  import opened PrototypeRoundTrip
  import opened EnumRoundTrip

  /** A name with its type; the brackets of an array may be empty. */
  datatype Declarator = Declarator(name: string, ty: TypeText, brackets: Option<Option<nat>>)

  predicate DeclaratorOk(d: Declarator) {
    IsName(d.name) && TypeOk(d.ty)
  }

  predicate MembersOk(ms: seq<Declarator>) {
    forall k | 0 <= k < |ms| :: DeclaratorOk(ms[k])
  }

  function MemberTokens(d: Declarator): seq<Token> {
    TypeTokensOf(d.ty) + ([d.name] + (BracketTokens(d.brackets) + [";"]))
  }

  function BodyTokens(ms: seq<Declarator>): seq<Token> {
    if ms == [] then [] else MemberTokens(ms[0]) + BodyTokens(ms[1..])
  }

  function ReadDeclarator(d: Declarator): CType {
    Shape(d.brackets, ReadType(d.ty))
  }

  function DeclaratorMeaning(d: Declarator): CType
    requires DeclaratorOk(d)
  {
    match d.brackets
    case None => TypeMeaning(d.ty)
    case Some(size) => Array(TypeMeaning(d.ty), size)
  }

  /** Its type is spelled in order, and its size fits 64 bits. */
  predicate DeclaratorIsUnderstood(d: Declarator)
    requires DeclaratorOk(d)
  {
    TypeIsUnderstood(d.ty) && (d.brackets.Some? && d.brackets.value.Some? ==> d.brackets.value.value < TWO_64)
  }

  lemma DeclaratorIsReadExactly(d: Declarator)
    requires DeclaratorOk(d)
    ensures ReadDeclarator(d) == DeclaratorMeaning(d) <==> DeclaratorIsUnderstood(d)
  {
    hide ReadType, TypeMeaning, TypeIsUnderstood, TypeOk, IsName;
    TypeIsUnderstoodExactly(d.ty);
  }

  function ReadFields(ms: seq<Declarator>): seq<CField> {
    seq(|ms|, k requires 0 <= k < |ms| => CField(ms[k].name, ReadDeclarator(ms[k])))
  }

  function FieldsMeaning(ms: seq<Declarator>): seq<CField>
    requires MembersOk(ms)
  {
    seq(|ms|, k requires 0 <= k < |ms| => CField(ms[k].name, DeclaratorMeaning(ms[k])))
  }

  predicate FieldsAreUnderstood(ms: seq<Declarator>)
    requires MembersOk(ms)
  {
    forall k | 0 <= k < |ms| :: DeclaratorIsUnderstood(ms[k])
  }

  lemma FieldsAreReadExactly(ms: seq<Declarator>)
    requires MembersOk(ms)
    ensures ReadFields(ms) == FieldsMeaning(ms) <==> FieldsAreUnderstood(ms)
  {
    hide ReadDeclarator, DeclaratorMeaning, DeclaratorIsUnderstood, DeclaratorOk;
    forall k | 0 <= k < |ms|
      ensures ReadFields(ms)[k] == FieldsMeaning(ms)[k] <==> DeclaratorIsUnderstood(ms[k])
    {
      DeclaratorIsReadExactly(ms[k]);
    }
  }

  lemma MemberParts(d: Declarator, rest: seq<Token>)
    ensures MemberTokens(d) + rest == TypeTokensOf(d.ty) + ([d.name] + (BracketTokens(d.brackets) + ([";"] + rest)))
  {
    hide TypeTokensOf, BracketTokens;
    assert BracketTokens(d.brackets) + [";"] + rest == BracketTokens(d.brackets) + ([";"] + rest);
    assert [d.name] + (BracketTokens(d.brackets) + [";"]) + rest
        == [d.name] + (BracketTokens(d.brackets) + ([";"] + rest));
  }

  /** A declarator from its type to its semicolon: where the cursor stops on the way. */
  lemma DeclaratorIsRead(s: string, i: nat, d: Declarator, rest: seq<Token>)
    requires DeclaratorOk(d) && At(s, i, MemberTokens(d) + rest)
    ensures i <= |s| && ParseType(s, i).0 == Some(ReadType(d.ty))
    ensures var (name, m) := ReadIdent(s, Blank(s, ParseType(s, i).1)); var (ty, n) := ArraySuffix(s, m,
                                                                                                   ReadType(d.ty));
            name == Some(d.name) && ty == ReadDeclarator(d) && At(s, ExpectChar(s, n, ';'), rest)
  {
    hide At, Blank, ParseType, ReadIdent, ArraySuffix, ExpectChar, TypeTokensOf, BracketTokens, ReadType, TypeOk,
         IsWord, IsTypeKeyword, IsQualifier, EndsType, MemberTokens, Shape;
    var close := [";"] + rest;
    var behind := BracketTokens(d.brackets) + close;
    MemberParts(d, rest);
    InText(s, i, MemberTokens(d) + rest);
    NameEndsType(d.name, behind);
    TypeIsRead(s, i, d.ty, [d.name] + behind);
    var j := ParseType(s, i).1;
    BlankIsSkipped(s, j, [d.name] + behind);
    TagIsRead(s, Blank(s, j), d.name, behind);
    var m := ReadIdent(s, Blank(s, j)).1;
    assert close[0] == ";" && close[0][0] != '[';
    BracketsAreRead(s, m, d.brackets, ReadType(d.ty), close);
    ExpectedIsRead(s, ArraySuffix(s, m, ReadType(d.ty)).1, ';', rest);
  }

  lemma MemberOpens(d: Declarator, rest: seq<Token>)
    requires DeclaratorOk(d)
    ensures var toks := MemberTokens(d) + rest; toks != [] && IsWord(toks[0]) && toks[0] == TypeTokensOf(d.ty)[0]
  {
    hide TypeTokensOf, BracketTokens, TypeOk, IsName, IsWord;
    TypeOpens(d.ty);
    Front(TypeTokensOf(d.ty), [d.name] + (BracketTokens(d.brackets) + [";"]));
    Front(MemberTokens(d), rest);
  }

  /** One turn of the field loop. */
  lemma MemberStep(s: string, i: nat, d: Declarator, done: seq<CField>, errors: seq<string>, rest: seq<Token>)
    requires DeclaratorOk(d) && At(s, i, MemberTokens(d) + rest)
    ensures i <= |s|
    ensures exists e: nat :: e <= |s| && At(s, e, rest)
              && StructFields(s, i, done, errors)
                 == StructFields(s, e, done + [CField(d.name, ReadDeclarator(d))], errors)
  {
    hide At, Blank, ParseType, ReadIdent, ArraySuffix, ExpectChar, MemberTokens, ReadType, DeclaratorOk,
         ReadDeclarator, IsWord;
    var toks := MemberTokens(d) + rest;
    InText(s, i, toks);
    var k := Blank(s, i);
    MemberOpens(d, rest);
    WordIsNext(s, i, toks);
    BlankIsSkipped(s, i, toks);
    DeclaratorIsRead(s, k, d, rest);
    var m := ReadIdent(s, Blank(s, ParseType(s, k).1)).1;
    InText(s, ExpectChar(s, ArraySuffix(s, m, ReadType(d.ty)).1, ';'), rest);
  }

  lemma BodyCloses(s: string, i: nat, done: seq<CField>, errors: seq<string>, rest: seq<Token>)
    requires At(s, i, ["}"] + rest)
    ensures i <= |s| && var r := StructFields(s, i, done, errors); r.0 == done && r.2 == errors && At(s, r.1, rest)
  {
    hide At, Blank, ParseType;
    var toks := ["}"] + rest;
    InText(s, i, toks);
    assert toks[0] == "}" && toks[1..] == rest;
    SymbolIsPeeked(s, i, '}', toks);
  }

  lemma BodyParts(ms: seq<Declarator>, rest: seq<Token>)
    ensures ms == [] ==> BodyTokens(ms) + rest == rest
    ensures ms != [] ==> BodyTokens(ms) + rest == MemberTokens(ms[0]) + (BodyTokens(ms[1..]) + rest)
  {
    hide MemberTokens;
    if ms == [] {
      assert [] + rest == rest;
    }
  }

  /** The members of a body are read up to its brace. */
  lemma {:induction false} MembersAreRead(s: string, i: nat, ms: seq<Declarator>, done: seq<CField>,
                                          errors: seq<string>, rest: seq<Token>)
    requires MembersOk(ms) && At(s, i, BodyTokens(ms) + (["}"] + rest))
    ensures i <= |s|
    ensures var r := StructFields(s, i, done, errors);
            r.0 == done + ReadFields(ms) && r.2 == errors && At(s, r.1, rest)
    decreases |ms|
  {
    hide At, StructFields, BodyTokens, MemberTokens, ReadDeclarator, DeclaratorOk;
    BodyParts(ms, ["}"] + rest);
    if ms == [] {
      BodyCloses(s, i, done, errors, rest);
      assert done + ReadFields(ms) == done;
    } else {
      var field := CField(ms[0].name, ReadDeclarator(ms[0]));
      MemberStep(s, i, ms[0], done, errors, BodyTokens(ms[1..]) + (["}"] + rest));
      var e: nat :| e <= |s| && At(s, e, BodyTokens(ms[1..]) + (["}"] + rest))
        && StructFields(s, i, done, errors) == StructFields(s, e, done + [field], errors);
      MembersAreRead(s, e, ms[1..], done + [field], errors, rest);
      assert done + [field] + ReadFields(ms[1..]) == done + ReadFields(ms);
    }
  }
}
