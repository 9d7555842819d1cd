/** What the words of a C type say, counted as the C standard counts specifiers (section 6.7.2 of
    ISO/IEC 9899), against what the header parser makes of them
    (compiler/crates/kryos-bindgen/src/c_parser.rs `resolve_type_tokens`), which wants them in
    order: sign, size, `int`. */
module TypeSpellings {
  import opened HeaderGrammar
  import opened HeaderLayout

  /** The words the parser takes for a type: keywords in any order and number, or one other word. */
  predicate IsSpecifier(ws: seq<string>) {
    && ws != []
    && (|| (forall k | 0 <= k < |ws| :: IsTypeKeyword(ws[k]))
        || (|ws| == 1 && IsWord(ws[0]) && IsTypeStart(ws[0]) && ws[0] != "struct" && ws[0] != "enum"))
  }

  datatype Size = CharSize | ShortSize | IntSize | LongSize | LongLongSize

  function Count(ws: seq<string>, w: string): nat {
    if ws == [] then 0 else (if ws[0] == w then 1 else 0) + Count(ws[1..], w)
  }

  function SizeOf(ws: seq<string>): Size {
    if "char" in ws then CharSize
    else if "short" in ws then ShortSize
    else if "long" !in ws then IntSize
    else if Count(ws, "long") == 1 then LongSize
    else LongLongSize
  }

  function Integral(size: Size, isUnsigned: bool): CType {
    match size
    case CharSize => if isUnsigned then UChar else Char
    case ShortSize => if isUnsigned then UShort else Short
    case IntSize => if isUnsigned then UInt else Int
    case LongSize => if isUnsigned then ULong else Long
    case LongLongSize => if isUnsigned then ULongLong else LongLong
  }

  /** Types of the standard headers; a signed word is a `long`. Any other word is a name. */
  function WordMeaning(w: string): CType {
    match w
    case "size_t" => SizeT
    case "uintptr_t" => SizeT
    case "ssize_t" => Long
    case "intptr_t" => Long
    case "ptrdiff_t" => Long
    case "bool" => Bool
    case "_Bool" => Bool
    case "int8_t" => Integral(CharSize, false)
    case "int16_t" => Integral(ShortSize, false)
    case "int32_t" => Integral(IntSize, false)
    case "int64_t" => Integral(LongLongSize, false)
    case "uint8_t" => Integral(CharSize, true)
    case "uint16_t" => Integral(ShortSize, true)
    case "uint32_t" => Integral(IntSize, true)
    case "uint64_t" => Integral(LongLongSize, true)
    case _ => Named(w)
  }

  /** The order of the words does not matter; a `long double` counts as a `double`. */
  function CMeaning(ws: seq<string>): CType
    requires ws != []
  {
    if !IsTypeKeyword(ws[0]) then WordMeaning(ws[0])
    else if "void" in ws then Void
    else if "float" in ws then Float
    else if "double" in ws then Double
    else Integral(SizeOf(ws), "unsigned" in ws)
  }

  function WithoutSign(ws: seq<string>): seq<string> {
    if ws != [] && (ws[0] == "signed" || ws[0] == "unsigned") then ws[1..] else ws
  }

  function WithoutInt(ws: seq<string>): seq<string> {
    if ws != [] && ws[|ws| - 1] == "int" then ws[..|ws| - 1] else ws
  }

  /** Sign, size and `int`, in this order. */
  predicate IsIntegral(ws: seq<string>) {
    && ws != []
    && (WithoutSign(ws) == ["char"] || WithoutInt(WithoutSign(ws)) in {[], ["short"], ["long"], ["long", "long"]})
  }

  /** The spellings that are understood: keywords in order, and all words but the two signed ones
      that are taken for `size_t`. */
  predicate Understood(ws: seq<string>)
    requires ws != []
  {
    if IsTypeKeyword(ws[0]) then
      ws in {["void"], ["float"], ["double"], ["long", "double"]} || IsIntegral(ws)
    else ws[0] != "intptr_t" && ws[0] != "ptrdiff_t"
  }

  lemma WordResolves(w: string)
    requires !IsTypeKeyword(w)
    ensures ResolveTypeTokens([w]) == CMeaning([w]) <==> Understood([w])
  {
    assert Join([w]) == w;
  }

  predicate CharForm(ws: seq<string>) {
    || ws == ["char"] || ws == ["signed", "char"] || ws == ["unsigned", "char"]
  }

  predicate ShortForm(ws: seq<string>) {
    || ws == ["short"] || ws == ["short", "int"] || ws == ["signed", "short"]
    || ws == ["signed", "short", "int"] || ws == ["unsigned", "short"] || ws == ["unsigned", "short", "int"]
  }

  predicate IntForm(ws: seq<string>) {
    || ws == ["int"] || ws == ["signed"] || ws == ["signed", "int"] || ws == ["unsigned"]
    || ws == ["unsigned", "int"]
  }

  predicate LongForm(ws: seq<string>) {
    || ws == ["long"] || ws == ["long", "int"] || ws == ["signed", "long"] || ws == ["signed", "long", "int"]
    || ws == ["unsigned", "long"] || ws == ["unsigned", "long", "int"]
  }

  predicate LongLongForm(ws: seq<string>) {
    || ws == ["long", "long"] || ws == ["long", "long", "int"] || ws == ["signed", "long", "long"]
    || ws == ["signed", "long", "long", "int"] || ws == ["unsigned", "long", "long"]
    || ws == ["unsigned", "long", "long", "int"]
  }

  predicate OtherForm(ws: seq<string>) {
    ws == ["void"] || ws == ["float"] || ws == ["double"] || ws == ["long", "double"]
  }

  function One(b: bool): nat {
    if b then 1 else 0
  }

  lemma CountFew(a: string, b: string, c: string, d: string, w: string)
    ensures Count([a], w) == One(a == w)
    ensures Count([a, b], w) == One(a == w) + One(b == w)
    ensures Count([a, b, c], w) == One(a == w) + One(b == w) + One(c == w)
    ensures Count([a, b, c, d], w) == One(a == w) + One(b == w) + One(c == w) + One(d == w)
  {
    assert [a, b, c, d][1..] == [b, c, d] && [b, c, d][1..] == [c, d] && [c, d][1..] == [d] && [d][1..] == [];
    assert [a, b, c][1..] == [b, c] && [b, c][1..] == [c] && [c][1..] == [] && [a, b][1..] == [b] && [b][1..] == [];
    assert Count([d], w) == One(d == w) && Count([c], w) == One(c == w) && Count([b], w) == One(b == w);
    assert Count([c, d], w) == One(c == w) + One(d == w);
  }

  lemma CharsResolve(ws: seq<string>)
    requires CharForm(ws)
    ensures ResolveTypeTokens(ws) == CMeaning(ws)
  {
    hide Count;
  }

  lemma ShortsResolve(ws: seq<string>)
    requires ShortForm(ws)
    ensures ResolveTypeTokens(ws) == CMeaning(ws)
  {
    hide Count;
  }

  lemma IntsResolve(ws: seq<string>)
    requires IntForm(ws)
    ensures ResolveTypeTokens(ws) == CMeaning(ws)
  {
    hide Count;
  }

  lemma CountLongs(ws: seq<string>)
    requires LongForm(ws)
    ensures "long" in ws && Count(ws, "long") == 1
  {
    CountFew(ws[0], "long", "int", "int", "long");
    CountFew(ws[0], "int", "int", "int", "long");
    hide Count;
  }

  lemma CountLongLongs(ws: seq<string>)
    requires LongLongForm(ws)
    ensures "long" in ws && Count(ws, "long") == 2
  {
    CountFew(ws[0], "long", "long", "int", "long");
    CountFew(ws[0], "long", "int", "int", "long");
    hide Count;
  }

  lemma HoldNoOther(ws: seq<string>)
    requires LongForm(ws) || LongLongForm(ws)
    ensures IsTypeKeyword(ws[0]) && "char" !in ws && "short" !in ws && "void" !in ws && "float" !in ws
            && "double" !in ws && ("unsigned" in ws <==> ws[0] == "unsigned")
  {
  }

  lemma LongsMean(ws: seq<string>)
    requires LongForm(ws)
    ensures CMeaning(ws) == (if ws[0] == "unsigned" then ULong else Long)
  {
    HoldNoOther(ws);
    CountLongs(ws);
    hide Count, IsTypeKeyword, LongForm;
  }

  lemma LongLongsMean(ws: seq<string>)
    requires LongLongForm(ws)
    ensures CMeaning(ws) == (if ws[0] == "unsigned" then ULongLong else LongLong)
  {
    HoldNoOther(ws);
    CountLongLongs(ws);
    hide Count, IsTypeKeyword, LongLongForm;
  }

  lemma LongsResolve(ws: seq<string>)
    requires LongForm(ws)
    ensures ResolveTypeTokens(ws) == (if ws[0] == "unsigned" then ULong else Long)
  {
  }

  lemma LongLongsResolve(ws: seq<string>)
    requires LongLongForm(ws)
    ensures ResolveTypeTokens(ws) == (if ws[0] == "unsigned" then ULongLong else LongLong)
  {
  }

  lemma OtherResolves(ws: seq<string>)
    requires OtherForm(ws)
    ensures ResolveTypeTokens(ws) == CMeaning(ws)
  {
  }

  predicate IntegralForm(ws: seq<string>) {
    CharForm(ws) || ShortForm(ws) || IntForm(ws) || LongForm(ws) || LongLongForm(ws)
  }

  /** Sign, size and `int` put together again. */
  lemma IntegralIsListed(ws: seq<string>)
    requires IsIntegral(ws)
    ensures IntegralForm(ws)
  {
    var u := WithoutSign(ws);
    var w := WithoutInt(u);
    assert ws == u || ws == ["signed"] + u || ws == ["unsigned"] + u;
    assert u == w || u == w + ["int"];
    if u == ["char"] {
      assert CharForm(ws);
    } else if w == [] {
      assert IntForm(ws);
    } else if w == ["short"] {
      assert ShortForm(ws);
    } else if w == ["long"] {
      assert LongForm(ws);
    } else {
      assert LongLongForm(ws);
    }
  }

  lemma ListedIsIntegral(ws: seq<string>)
    requires IntegralForm(ws)
    ensures IsIntegral(ws)
  {
    var u := WithoutSign(ws);
    if CharForm(ws) {
      assert u == ["char"];
    } else if IntForm(ws) {
      assert u == [] || u == ["int"];
      assert WithoutInt(u) == [];
    } else if ShortForm(ws) {
      assert u == ["short"] || u == ["short", "int"];
      assert WithoutInt(u) == ["short"];
    } else if LongForm(ws) {
      assert u == ["long"] || u == ["long", "int"];
      assert WithoutInt(u) == ["long"];
    } else {
      assert u == ["long", "long"] || u == ["long", "long", "int"];
      assert WithoutInt(u) == ["long", "long"];
    }
  }

  lemma FormsAreUnderstood(ws: seq<string>)
    requires ws != [] && IsTypeKeyword(ws[0])
    ensures IntegralForm(ws) || OtherForm(ws) <==> Understood(ws)
  {
    if IsIntegral(ws) {
      IntegralIsListed(ws);
    }
    if IntegralForm(ws) {
      ListedIsIntegral(ws);
    }
    hide IsIntegral, IntegralForm, IsTypeKeyword;
  }

  lemma OthersAreJoined(ws: seq<string>)
    requires ws != [] && IsTypeKeyword(ws[0])
    requires !CharForm(ws) && !ShortForm(ws) && !IntForm(ws) && !LongForm(ws) && !LongLongForm(ws) && !OtherForm(ws)
    ensures ResolveTypeTokens(ws).Named?
  {
    hide Join;
  }

  lemma KeywordsMeanNoName(ws: seq<string>)
    requires ws != [] && IsTypeKeyword(ws[0])
    ensures !CMeaning(ws).Named?
  {
    hide IsTypeKeyword, SizeOf;
  }

  /** The parser gives the words their meaning exactly when it understands the spelling. */
  lemma ResolvesExactly(ws: seq<string>)
    requires IsSpecifier(ws)
    ensures ResolveTypeTokens(ws) == CMeaning(ws) <==> Understood(ws)
  {
    hide ResolveTypeTokens, CMeaning, Understood, CharForm, ShortForm, IntForm, LongForm, LongLongForm, OtherForm;
    if !IsTypeKeyword(ws[0]) {
      assert ws == [ws[0]];
      WordResolves(ws[0]);
    } else {
      FormsAreUnderstood(ws);
      KeywordsMeanNoName(ws);
      if CharForm(ws) {
        CharsResolve(ws);
      } else if ShortForm(ws) {
        ShortsResolve(ws);
      } else if IntForm(ws) {
        IntsResolve(ws);
      } else if LongForm(ws) {
        LongsMean(ws);
        LongsResolve(ws);
      } else if LongLongForm(ws) {
        LongLongsMean(ws);
        LongLongsResolve(ws);
      } else if OtherForm(ws) {
        OtherResolves(ws);
      } else {
        OthersAreJoined(ws);
      }
    }
  }
}
