/** The C header parser (compiler/crates/kryos-bindgen/src/c_parser.rs): an object with a cursor
    and growing lists of items and errors. Every method computes its grammar function, keeps
    the cursor inside the text and terminates, backtracking included. */
module CHeaderParsers {
  import opened Wrappers
  import G = HeaderGrammar
  import Text
  import Numerals

  class CHeaderParser {
    const source: string
    var pos: nat
    var items: seq<G.CItem>
    var errors: seq<string>

    constructor (source: string)
      ensures this.source == source && Valid() && State() == G.State(0, [], [])
    {
      this.source := source;
      pos, items, errors := 0, [], [];
    }

    ghost predicate Valid()
      reads this
    {
      pos <= |source|
    }

    function State(): G.State
      reads this
    {
      G.State(pos, items, errors)
    }

    // ----- cursor -----

    predicate IsEof()
      reads this
    {
      pos >= |source|
    }

    predicate Peek(c: char)
      reads this
    {
      pos < |source| && source[pos] == c
    }

    predicate Starts(t: string)
      reads this
    {
      G.StartsWith(source, pos, t)
    }

    method Advance(n: nat)
      requires Valid()
      modifies this`pos
      ensures Valid() && pos == G.Advance(source, old(pos), n)
    {
      pos := if pos + n <= |source| then pos + n else |source|;
    }

    method SkipWhitespace()
      requires Valid()
      modifies this`pos
      ensures Valid() && pos == G.SkipSpace(source, old(pos))
    {
      while pos < |source| && G.IsSpace(source[pos])
        invariant Valid() && G.SkipSpace(source, pos) == G.SkipSpace(source, old(pos))
        decreases |source| - pos
      {
        Advance(1);
      }
    }

    method SkipToChar(c: char)
      requires Valid()
      modifies this`pos
      ensures Valid() && pos == Text.Find(source, old(pos), c)
    {
      while pos < |source| && source[pos] != c
        invariant Valid() && Text.Find(source, pos, c) == Text.Find(source, old(pos), c)
        decreases |source| - pos
      {
        Advance(1);
      }
    }

    method SkipLine()
      requires Valid()
      modifies this`pos
      ensures Valid() && pos == G.SkipLine(source, old(pos))
    {
      SkipToChar('\n');
      if !IsEof() {
        Advance(1);
      }
    }

    method SkipBlockComment()
      requires Valid()
      modifies this`pos
      ensures Valid() && pos == G.SkipBlockComment(source, old(pos))
    {
      while pos < |source| && !Starts("*/")
        invariant Valid() && G.SkipBlockComment(source, pos) == G.SkipBlockComment(source, old(pos))
        decreases |source| - pos
      {
        Advance(1);
      }
      if pos < |source| {
        Advance(2);
      }
    }

    method SkipWhitespaceAndComments()
      requires Valid()
      modifies this`pos
      ensures Valid() && pos == G.Blank(source, old(pos))
    {
      while true
        invariant Valid() && G.Blank(source, pos) == G.Blank(source, old(pos))
        decreases |source| - pos
      {
        SkipWhitespace();
        if Starts("//") {
          SkipLine();
        } else if Starts("/*") {
          Advance(2);
          SkipBlockComment();
        } else {
          break;
        }
      }
    }

    method ExpectChar(c: char)
      requires Valid()
      modifies this`pos
      ensures Valid() && pos == G.ExpectChar(source, old(pos), c)
    {
      SkipWhitespaceAndComments();
      if Peek(c) {
        Advance(1);
      }
    }

    method ReadIdent() returns (ident: Option<string>)
      requires Valid()
      modifies this`pos
      ensures Valid() && (ident, pos) == G.ReadIdent(source, old(pos))
    {
      SkipWhitespaceAndComments();
      var start := pos;
      while pos < |source| && G.IsIdentChar(source[pos])
        invariant start <= pos <= |source| && G.WhileIdent(source, pos) == G.WhileIdent(source, start)
        decreases |source| - pos
      {
        Advance(1);
      }
      ident := if pos > start then Some(source[start..pos]) else None;
    }

    method SkipDigits()
      requires Valid()
      modifies this`pos
      ensures Valid() && pos == G.WhileDigits(source, old(pos))
    {
      while pos < |source| && Numerals.IsDigit(source[pos])
        invariant Valid() && G.WhileDigits(source, pos) == G.WhileDigits(source, old(pos))
        decreases |source| - pos
      {
        Advance(1);
      }
    }

    method ReadArraySize() returns (size: Option<nat>)
      requires Valid()
      modifies this`pos
      ensures Valid() && (size, pos) == G.ReadArraySize(source, old(pos))
    {
      SkipWhitespaceAndComments();
      var start := pos;
      SkipDigits();
      size := if pos > start && Numerals.NumberValue(source[start..pos], 10) < G.TWO_64
              then Some(Numerals.NumberValue(source[start..pos], 10)) else None;
    }

    method SkipIntegerSuffix()
      requires Valid()
      modifies this`pos
      ensures Valid() && pos == G.WhileSuffix(source, old(pos))
    {
      while pos < |source| && G.IsIntSuffix(source[pos])
        invariant Valid() && G.WhileSuffix(source, pos) == G.WhileSuffix(source, old(pos))
        decreases |source| - pos
      {
        Advance(1);
      }
    }

    method SkipHexDigits()
      requires Valid()
      modifies this`pos
      ensures Valid() && pos == G.WhileHex(source, old(pos))
    {
      while pos < |source| && Numerals.IsHexDigit(source[pos])
        invariant Valid() && G.WhileHex(source, pos) == G.WhileHex(source, old(pos))
        decreases |source| - pos
      {
        Advance(1);
      }
    }

    method ParseIntegerValue() returns (value: Option<int>)
      requires Valid()
      modifies this`pos
      ensures Valid() && (value, pos) == G.ReadInteger(source, old(pos))
    {
      hide G.Blank, G.SkipSpace, G.WhileDigits, G.WhileHex, G.WhileSuffix, Numerals.NumberValue, G.StartsWith;
      SkipWhitespaceAndComments();
      var negative := Peek('-');
      if negative {
        Advance(1);
      }
      SkipWhitespace();
      var v: int;
      if Starts("0x") || Starts("0X") {
        Advance(2);
        var start := pos;
        SkipHexDigits();
        v := Numerals.NumberValue(source[start..pos], 16);
        value := if pos > start && v < G.TWO_63 then Some(if negative then -v else v) else None;
      } else {
        var start := pos;
        SkipDigits();
        v := Numerals.NumberValue(source[start..pos], 10);
        value := if pos > start && (v < G.TWO_63 || (negative && v == G.TWO_63))
                 then Some(if negative then -v else v) else None;
      }
      SkipIntegerSuffix();
    }

    // ----- types -----

    method SkipQualifiers()
      requires Valid()
      modifies this`pos
      ensures Valid() && pos == G.SkipQualifiers(source, old(pos))
    {
      hide G.ReadIdent;
      while true
        invariant Valid() && G.SkipQualifiers(source, pos) == G.SkipQualifiers(source, old(pos))
        decreases |source| - pos
      {
        var saved := pos;
        var ident := ReadIdent();
        if ident.Some? && G.IsQualifier(ident.value) {
          continue;
        }
        pos := saved;
        break;
      }
    }

    method ReadTypeTokens() returns (tokens: seq<string>)
      requires Valid()
      modifies this`pos
      ensures Valid() && (tokens, pos) == G.TypeTokens(source, old(pos), [])
    {
      hide G.ReadIdent, G.IsTypeStart, G.IsTypeKeyword;
      tokens := [];
      while true
        invariant Valid() && G.TypeTokens(source, pos, tokens) == G.TypeTokens(source, old(pos), [])
        decreases |source| - pos
      {
        var saved := pos;
        var ident := ReadIdent();
        if ident.None? {
          break;
        }
        if G.IsQualifier(ident.value) {
          continue;
        }
        if G.IsTypeKeyword(ident.value) || (tokens == [] && G.IsTypeStart(ident.value)) {
          tokens := tokens + [ident.value];
          continue;
        }
        pos := saved;
        break;
      }
    }

    method ParseBaseType() returns (ty: Option<G.CType>)
      requires Valid()
      modifies this`pos
      ensures Valid() && (ty, pos) == G.ParseBaseType(source, old(pos))
    {
      hide G.Blank, G.ReadIdent, G.SkipQualifiers, G.TypeTokens, G.ResolveTypeTokens;
      SkipWhitespaceAndComments();
      SkipQualifiers();
      var tokens := ReadTypeTokens();
      if tokens == [] {
        return None;
      }
      if tokens == ["struct"] || tokens == ["enum"] {
        var name := ReadIdent();
        if name.Some? {
          return Some(G.Named(name.value));
        }
      }
      ty := Some(G.ResolveTypeTokens(tokens));
    }

    method SkipAfterStar()
      requires Valid()
      modifies this`pos
      ensures Valid() && pos == G.AfterStar(source, old(pos))
    {
      hide G.Blank, G.ReadIdent;
      while true
        invariant Valid() && G.AfterStar(source, pos) == G.AfterStar(source, old(pos))
        decreases |source| - pos
      {
        SkipWhitespaceAndComments();
        var saved := pos;
        var ident := ReadIdent();
        if ident.Some? {
          if G.IsQualifier(ident.value) {
            continue;
          }
          pos := saved;
        }
        break;
      }
    }

    method ParsePointerSuffix(base: G.CType) returns (ty: G.CType)
      requires Valid()
      modifies this`pos
      ensures Valid() && (ty, pos) == G.PointerSuffix(source, old(pos), base)
    {
      hide G.Blank, G.ReadIdent, G.AfterStar;
      ty := base;
      while true
        invariant Valid() && G.PointerSuffix(source, pos, ty) == G.PointerSuffix(source, old(pos), base)
        decreases |source| - pos
      {
        SkipWhitespaceAndComments();
        var saved := pos;
        var ident := ReadIdent();
        if ident.Some? && !G.IsQualifier(ident.value) {
          pos := saved;
        }
        SkipWhitespaceAndComments();
        if Peek('*') {
          Advance(1);
          ty := G.Pointer(ty);
          SkipAfterStar();
        } else {
          break;
        }
      }
    }

    method ParseType() returns (ty: Option<G.CType>)
      requires Valid()
      modifies this`pos
      ensures Valid() && (ty, pos) == G.ParseType(source, old(pos))
    {
      hide G.ParseBaseType, G.PointerSuffix;
      var base := ParseBaseType();
      if base.None? {
        return None;
      }
      var t := ParsePointerSuffix(base.value);
      ty := Some(t);
    }

    method ParseArraySuffix(ty: G.CType) returns (final: G.CType)
      requires Valid()
      modifies this`pos
      ensures Valid() && (final, pos) == G.ArraySuffix(source, old(pos), ty)
    {
      hide G.Blank, G.ReadArraySize, G.ExpectChar;
      SkipWhitespaceAndComments();
      final := ty;
      if Peek('[') {
        Advance(1);
        var size := ReadArraySize();
        ExpectChar(']');
        final := G.Array(ty, size);
      }
    }

    // ----- struct and enum bodies -----

    method ParseStructFields() returns (fields: seq<G.CField>)
      requires Valid()
      modifies this`pos, this`errors
      ensures Valid() && (fields, pos, errors) == G.StructFields(source, old(pos), [], old(errors))
    {
      hide G.Blank, G.ReadIdent, G.ParseType, G.ArraySuffix, G.ExpectChar, Text.Find;
      fields := [];
      while true
        invariant Valid()
        invariant G.StructFields(source, pos, fields, errors) == G.StructFields(source, old(pos), [], old(errors))
        decreases |source| - pos
      {
        SkipWhitespaceAndComments();
        if Peek('}') {
          Advance(1);
          break;
        }
        if IsEof() {
          errors := errors + ["unexpected EOF in struct body"];
          break;
        }
        var ty := ParseType();
        if ty.Some? {
          SkipWhitespaceAndComments();
          var name := ReadIdent();
          if name.Some? {
            var final := ParseArraySuffix(ty.value);
            fields := fields + [G.CField(name.value, final)];
          }
          ExpectChar(';');
        } else {
          SkipToChar(';');
          Advance(1);
        }
      }
    }

    /** What follows an enumerator's name: its value, if given, and a comma. */
    method ParseVariantValue() returns (value: Option<int>)
      requires Valid()
      modifies this`pos
      ensures Valid() && (value, pos) == G.VariantValue(source, old(pos))
    {
      hide G.Blank, G.ReadInteger;
      SkipWhitespaceAndComments();
      value := None;
      if Peek('=') {
        Advance(1);
        SkipWhitespaceAndComments();
        value := ParseIntegerValue();
      }
      SkipWhitespaceAndComments();
      if Peek(',') {
        Advance(1);
      }
    }

    method ParseEnumVariants() returns (variants: seq<G.Variant>)
      requires Valid()
      modifies this`pos, this`errors
      ensures Valid() && (variants, pos, errors) == G.EnumVariants(source, old(pos), [], old(errors))
    {
      hide G.Blank, G.ReadIdent, G.VariantValue;
      variants := [];
      while true
        invariant Valid()
        invariant G.EnumVariants(source, pos, variants, errors) == G.EnumVariants(source, old(pos), [], old(errors))
        decreases |source| - pos
      {
        SkipWhitespaceAndComments();
        if Peek('}') {
          Advance(1);
          break;
        }
        if IsEof() {
          errors := errors + ["unexpected EOF in enum body"];
          break;
        }
        var name := ReadIdent();
        if name.Some? {
          var value := ParseVariantValue();
          variants := variants + [G.Variant(name.value, value)];
        } else {
          Advance(1);
        }
      }
    }

    // ----- functions -----

    method SkipGroup()
      requires Valid()
      modifies this`pos
      ensures Valid() && pos == G.SkipGroup(source, old(pos), 0)
    {
      var depth := 0;
      while pos < |source|
        invariant Valid() && G.SkipGroup(source, pos, depth) == G.SkipGroup(source, old(pos), 0)
        decreases |source| - pos
      {
        if Peek('(') {
          depth := depth + 1;
          Advance(1);
        } else if Peek(')') {
          depth := depth - 1;
          Advance(1);
          if depth == 0 {
            return;
          }
        } else {
          Advance(1);
        }
      }
    }

    method SkipAttributes()
      requires Valid()
      modifies this`pos
      ensures Valid() && pos == G.SkipAttributes(source, old(pos))
    {
      hide G.Blank, G.SkipGroup;
      SkipWhitespaceAndComments();
      if Starts("__attribute__") {
        Advance(13);
        SkipWhitespaceAndComments();
        if Peek('(') {
          SkipGroup();
        }
      }
    }

    /** `void)`: consumed if it stands here, put back otherwise. */
    method TryVoidClose() returns (closed: bool)
      requires Valid()
      modifies this`pos
      ensures Valid() && closed == G.VoidClose(source, old(pos)).Some?
      ensures pos == if closed then G.VoidClose(source, old(pos)).value
                     else if G.ReadIdent(source, old(pos)).0.Some? then old(pos) else G.ReadIdent(source, old(pos)).1
    {
      hide G.Blank, G.ReadIdent;
      var saved := pos;
      var ident := ReadIdent();
      if ident.Some? {
        if ident.value == "void" {
          SkipWhitespaceAndComments();
          if Peek(')') {
            Advance(1);
            return true;
          }
        }
        pos := saved;
      }
      closed := false;
    }

    /** One parameter, if a type stands here, and its comma. */
    method ParseParam(params: seq<G.CParam>, ghost start: nat) returns (out: seq<G.CParam>)
      requires Valid() && start <= |source|
      requires pos == if G.ReadIdent(source, start).0.Some? then start else G.ReadIdent(source, start).1
      modifies this`pos
      ensures Valid() && (out, pos) == G.ParamAt(source, start, params)
    {
      hide G.Blank, G.ReadIdent, G.ParseType, G.ReadArraySize, G.ExpectChar;
      out := params;
      var ty := ParseType();
      if ty.Some? {
        SkipWhitespaceAndComments();
        var name: Option<string> := None;
        if !Peek(',') && !Peek(')') && !Peek('.') {
          name := ReadIdent();
          SkipWhitespaceAndComments();
          if Peek('[') {
            Advance(1);
            var _ := ReadArraySize();
            ExpectChar(']');
          }
        }
        out := out + [G.CParam(name, ty.value)];
      }
      SkipWhitespaceAndComments();
      if Peek(',') {
        Advance(1);
      }
    }

    method ParseFunctionParams() returns (params: seq<G.CParam>, variadic: bool)
      requires Valid()
      modifies this`pos, this`errors
      ensures Valid() && G.Params(params, variadic, pos, errors) == G.FunctionParams(source, old(pos), [], old(errors))
    {
      hide G.Blank, G.ReadIdent, G.ParamAt, G.VoidClose;
      params, variadic := [], false;
      while true
        invariant Valid() && !variadic
        invariant G.FunctionParams(source, pos, params, errors) == G.FunctionParams(source, old(pos), [], old(errors))
        decreases |source| - pos
      {
        var loopStart := pos;
        SkipWhitespaceAndComments();
        if Peek(')') {
          Advance(1);
          return;
        }
        if IsEof() {
          errors := errors + ["unexpected EOF in function parameters"];
          return;
        }
        if Starts("...") {
          Advance(3);
          variadic := true;
          SkipWhitespaceAndComments();
          if Peek(')') {
            Advance(1);
          }
          return;
        }
        ghost var k := pos;
        var closed := TryVoidClose();
        if closed {
          return;
        }
        params := ParseParam(params, k);
        if pos <= loopStart {
          errors := errors + ["malformed function parameters"];
          return;
        }
      }
    }

    method ParseFunctionOrSkip()
      requires Valid()
      modifies this
      ensures Valid() && State() == G.FunctionOrSkip(source, old(State()))
    {
      hide G.Blank, G.ReadIdent, G.ParseType, G.FunctionParams, G.SkipAttributes, G.ExpectChar, Text.Find;
      var saved := pos;
      var ty := ParseType();
      if ty.Some? {
        SkipWhitespaceAndComments();
        var name := ReadIdent();
        if name.Some? {
          SkipWhitespaceAndComments();
          if Peek('(') {
            Advance(1);
            var params, variadic := ParseFunctionParams();
            SkipWhitespaceAndComments();
            SkipAttributes();
            ExpectChar(';');
            items := items + [G.Function(name.value, params, ty.value, variadic)];
            return;
          }
        }
      }
      pos := saved;
      SkipToChar(';');
      if !IsEof() {
        Advance(1);
      }
    }

    // ----- struct, enum, typedef -----

    method ParseStruct()
      requires Valid()
      modifies this
      ensures Valid() && State() == G.StructDecl(source, old(State()))
    {
      hide G.Blank, G.ReadIdent, G.StructFields, G.ExpectChar, Text.Find;
      SkipWhitespaceAndComments();
      var name := ReadIdent();
      if name.None? {
        errors := errors + ["expected struct name"];
        SkipToChar('}');
        Advance(1);
        ExpectChar(';');
        return;
      }
      SkipWhitespaceAndComments();
      if !Peek('{') {
        SkipToChar(';');
        Advance(1);
        return;
      }
      Advance(1);
      var fields := ParseStructFields();
      SkipWhitespaceAndComments();
      var _ := ReadIdent();
      ExpectChar(';');
      items := items + [G.Struct(name.value, fields)];
    }

    method ParseEnum()
      requires Valid()
      modifies this
      ensures Valid() && State() == G.EnumDecl(source, old(State()))
    {
      hide G.Blank, G.ReadIdent, G.EnumVariants, G.ExpectChar, Text.Find;
      SkipWhitespaceAndComments();
      var name := ReadIdent();
      if name.None? {
        errors := errors + ["expected enum name"];
        SkipToChar('}');
        Advance(1);
        ExpectChar(';');
        return;
      }
      SkipWhitespaceAndComments();
      if !Peek('{') {
        SkipToChar(';');
        Advance(1);
        return;
      }
      Advance(1);
      var variants := ParseEnumVariants();
      SkipWhitespaceAndComments();
      var _ := ReadIdent();
      ExpectChar(';');
      items := items + [G.Enum(name.value, variants)];
    }

    method ParseStars() returns (stars: nat)
      requires Valid()
      modifies this`pos
      ensures Valid() && (stars, pos) == G.SkipStars(source, old(pos))
    {
      hide G.Blank;
      stars := 0;
      while Peek('*')
        invariant Valid()
        invariant (stars + G.SkipStars(source, pos).0, G.SkipStars(source, pos).1) == G.SkipStars(source, old(pos))
        decreases |source| - pos
      {
        Advance(1);
        SkipWhitespaceAndComments();
        stars := stars + 1;
      }
    }

    method ParseTypedefStruct(tag: Option<string>)
      requires Valid() && Peek('{')
      modifies this
      ensures Valid() && State() == G.TypedefStruct(source, tag, old(State()))
    {
      hide G.Blank, G.ReadIdent, G.StructFields, G.SkipStars, G.ExpectChar;
      Advance(1);
      var fields := ParseStructFields();
      SkipWhitespaceAndComments();
      var stars := ParseStars();
      var alias := ReadIdent();
      ExpectChar(';');
      if alias.Some? {
        var name := if tag.Some? then tag.value else alias.value;
        items := items + [G.Struct(name, fields)];
        if stars > 0 {
          var ty := G.Named(name);
          for k := 0 to stars
            invariant ty == G.Pointers(k, G.Named(name))
          {
            ty := G.Pointer(ty);
          }
          items := items + [G.Typedef(alias.value, ty)];
        } else if alias.value != name {
          items := items + [G.Typedef(alias.value, G.Named(name))];
        }
      }
    }

    method ParseTypedefEnum(tag: Option<string>)
      requires Valid() && Peek('{')
      modifies this
      ensures Valid() && State() == G.TypedefEnum(source, tag, old(State()))
    {
      hide G.Blank, G.ReadIdent, G.EnumVariants, G.ExpectChar;
      Advance(1);
      var variants := ParseEnumVariants();
      SkipWhitespaceAndComments();
      var alias := ReadIdent();
      ExpectChar(';');
      if alias.Some? {
        var name := if tag.Some? then tag.value else alias.value;
        items := items + [G.Enum(name, variants)];
        if alias.value != name {
          items := items + [G.Typedef(alias.value, G.Named(name))];
        }
      }
    }

    method ParsePlainTypedef()
      requires Valid()
      modifies this
      ensures Valid() && State() == G.PlainTypedef(source, old(State()))
    {
      hide G.Blank, G.ReadIdent, G.ParseType, G.ArraySuffix, G.ExpectChar, Text.Find;
      var ty := ParseType();
      if ty.Some? {
        SkipWhitespaceAndComments();
        var name := ReadIdent();
        if name.Some? {
          var final := ParseArraySuffix(ty.value);
          ExpectChar(';');
          items := items + [G.Typedef(name.value, final)];
        } else {
          SkipToChar(';');
          Advance(1);
        }
      } else {
        SkipToChar(';');
        Advance(1);
      }
    }

    method ParseTypedef()
      requires Valid()
      modifies this
      ensures Valid() && State() == G.TypedefDecl(source, old(State()))
    {
      hide G.Blank, G.ReadIdent, G.TypedefStruct, G.TypedefEnum, G.PlainTypedef;
      SkipWhitespaceAndComments();
      var saved := pos;
      var kw := ReadIdent();
      if kw == Some("struct") || kw == Some("enum") {
        SkipWhitespaceAndComments();
        var tag := ReadIdent();
        SkipWhitespaceAndComments();
        if Peek('{') {
          if kw == Some("struct") {
            ParseTypedefStruct(tag);
          } else {
            ParseTypedefEnum(tag);
          }
          return;
        }
      }
      pos := saved;
      ParsePlainTypedef();
    }

    // ----- preprocessor -----

    method SkipTabs()
      requires Valid()
      modifies this`pos
      ensures Valid() && pos == G.SkipTabs(source, old(pos))
    {
      while pos < |source| && (source[pos] == ' ' || source[pos] == '\t')
        invariant Valid() && G.SkipTabs(source, pos) == G.SkipTabs(source, old(pos))
        decreases |source| - pos
      {
        Advance(1);
      }
    }

    /** Lines that end in a backslash go on in the next. */
    method SkipMacroLines()
      requires Valid()
      modifies this`pos
      ensures Valid() && pos == G.MacroEnd(source, old(pos))
    {
      hide Text.Find;
      while true
        invariant Valid() && G.MacroEnd(source, pos) == G.MacroEnd(source, old(pos))
        decreases |source| - pos
      {
        var lineStart := pos;
        SkipToChar('\n');
        if IsEof() {
          break;
        }
        var continues := pos > lineStart && source[pos - 1] == '\\';
        Advance(1);
        if !continues {
          break;
        }
      }
    }

    method ReadMacroBody() returns (value: string)
      requires Valid()
      modifies this`pos
      ensures Valid() && (value, pos) == G.MacroBody(source, old(pos))
    {
      hide Text.Find, G.SkipTabs, G.MacroEnd, Text.Trim;
      SkipTabs();
      var start := pos;
      SkipMacroLines();
      value := Text.Trim(source[start..pos]);
    }

    method ParseDefine()
      requires Valid()
      modifies this
      ensures Valid() && State() == G.DefineDirective(source, old(State()))
    {
      hide G.SkipSpace, G.ReadIdent, G.SkipLine, G.MacroBody;
      SkipWhitespace();
      var name := ReadIdent();
      if name.None? || Peek('(') {
        SkipLine();
        return;
      }
      var value := ReadMacroBody();
      if G.IsSimpleConstant(value) {
        items := items + [G.Define(name.value, G.StripNumericSuffix(value))];
      }
    }

    method ParsePreprocessor()
      requires Valid() && pos < |source|
      modifies this
      ensures Valid() && State() == G.Preprocessor(source, old(State()))
    {
      hide G.SkipSpace, G.ReadIdent, G.SkipLine, G.DefineDirective;
      Advance(1);
      SkipWhitespace();
      var directive := ReadIdent();
      if directive == Some("define") {
        ParseDefine();
      } else {
        SkipLine();
      }
    }

    // ----- the whole header -----

    method GuardProgress(start: nat)
      requires Valid() && start <= |source|
      modifies this`pos
      ensures Valid() && State() == G.Guard(source, start, old(State()))
    {
      if pos <= start {
        SkipLine();
      }
    }

    method ParseInnerDecl()
      requires Valid()
      modifies this
      ensures Valid() && State() == G.InnerDecl(source, old(State()))
    {
      hide G.ReadIdent, G.SkipLine, G.TypedefDecl, G.StructDecl, G.EnumDecl, G.FunctionOrSkip;
      var saved := pos;
      var ident := ReadIdent();
      if ident.None? {
        SkipLine();
      } else if ident.value == "typedef" {
        ParseTypedef();
      } else if ident.value == "struct" {
        ParseStruct();
      } else if ident.value == "enum" {
        ParseEnum();
      } else {
        pos := saved;
        ParseFunctionOrSkip();
      }
    }

    method ParseExternBody()
      requires Valid()
      modifies this
      ensures Valid() && State() == G.ExternBody(source, old(State()))
    {
      hide G.Blank, G.ExpectChar, G.Guard, G.InnerDecl;
      while true
        invariant Valid() && G.ExternBody(source, State()) == G.ExternBody(source, old(State()))
        decreases |source| - pos
      {
        SkipWhitespaceAndComments();
        if Peek('}') {
          Advance(1);
          ExpectChar(';');
          break;
        }
        if IsEof() {
          break;
        }
        var innerLoopStart := pos;
        ParseInnerDecl();
        GuardProgress(innerLoopStart);
      }
    }

    method ParseExtern()
      requires Valid()
      modifies this
      ensures Valid() && State() == G.ExternDecl(source, old(State()))
    {
      hide G.Blank, Text.Find, G.ExternBody;
      SkipWhitespaceAndComments();
      if Peek('"') {
        Advance(1);
        SkipToChar('"');
        if !IsEof() {
          Advance(1);
        }
      }
      SkipWhitespaceAndComments();
      if Peek('{') {
        Advance(1);
        ParseExternBody();
      }
    }

    method ParseTopDecl()
      requires Valid()
      modifies this
      ensures Valid() && State() == G.TopDecl(source, old(State()))
    {
      hide G.ReadIdent, G.TypedefDecl, G.StructDecl, G.EnumDecl, G.FunctionOrSkip, G.ExternDecl;
      var saved := pos;
      var ident := ReadIdent();
      if ident.None? {
        Advance(1);
      } else if ident.value == "typedef" {
        ParseTypedef();
      } else if ident.value == "struct" {
        ParseStruct();
      } else if ident.value == "enum" {
        ParseEnum();
      } else if ident.value == "extern" {
        ParseExtern();
      } else {
        pos := saved;
        ParseFunctionOrSkip();
      }
    }

    method Parse()
      requires Valid()
      modifies this
      ensures Valid() && State() == G.Header(source, old(State())) && pos == |source|
    {
      hide G.Blank, G.Guard, G.TopDecl, G.Preprocessor;
      while true
        invariant Valid() && G.Header(source, State()) == G.Header(source, old(State()))
        decreases |source| - pos
      {
        SkipWhitespaceAndComments();
        if IsEof() {
          break;
        }
        var loopStart := pos;
        if Peek('#') {
          ParsePreprocessor();
        } else {
          ParseTopDecl();
        }
        GuardProgress(loopStart);
      }
    }
  }

  /** The entry point: a fresh parser over the text. */
  method ParseCHeader(source: string) returns (result: G.Parsed)
    ensures result == G.ParseHeader(source)
  {
    var parser := new CHeaderParser(source);
    parser.Parse();
    result := if parser.errors == [] then G.Items(parser.items) else G.Errors(parser.errors);
  }
}
