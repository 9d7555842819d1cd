/** What each routine of the C header parser (compiler/crates/kryos-bindgen/src/c_parser.rs)
    computes, as functions of the source text and a cursor. Every recursion moves the cursor:
    the termination of the parser is the termination of these functions. */
module HeaderGrammar {
  import opened Wrappers
  import opened Numerals
  import Text

  datatype CType =
    | Void | Char | UChar | Short | UShort | Int | UInt | Long | ULong | LongLong | ULongLong
    | Float | Double | SizeT | Bool
    | Pointer(target: CType)
    | Array(element: CType, size: Option<nat>)
    | Named(name: string)

  datatype CParam = CParam(name: Option<string>, ty: CType)

  datatype CField = CField(name: string, ty: CType)

  datatype Variant = Variant(name: string, value: Option<int>)

  datatype CItem =
    | Function(name: string, params: seq<CParam>, retTy: CType, variadic: bool)
    | Struct(name: string, fields: seq<CField>)
    | Enum(name: string, variants: seq<Variant>)
    | Typedef(name: string, target: CType)
    | Define(name: string, value: string)

  /** Parser state: the cursor and what was collected. */
  datatype State = State(pos: nat, items: seq<CItem>, errors: seq<string>)

  predicate Ok(s: string, st: State) {
    st.pos <= |s|
  }

  // ----- characters -----

  predicate IsSpace(c: char) {
    c == ' ' || c == '\t' || c == '\n' || c == '\r' || c == 12 as char
  }

  predicate IsUpper(c: char) {
    'A' <= c <= 'Z'
  }

  predicate IsIdentChar(c: char) {
    IsDigit(c) || IsUpper(c) || 'a' <= c <= 'z' || c == '_'
  }

  predicate IsIntSuffix(c: char) {
    c == 'u' || c == 'U' || c == 'l' || c == 'L'
  }

  predicate PeekIs(s: string, i: nat, c: char) {
    i < |s| && s[i] == c
  }

  predicate StartsWith(s: string, i: nat, t: string) {
    i + |t| <= |s| && s[i..i + |t|] == t
  }

  /** Moving the cursor never leaves the text. */
  function Advance(s: string, i: nat, n: nat): (r: nat)
    requires i <= |s|
    ensures i <= r <= |s| && (i < |s| && n > 0 ==> i < r)
  {
    if i + n <= |s| then i + n else |s|
  }

  // ----- skipping -----

  function SkipSpace(s: string, i: nat): (r: nat)
    requires i <= |s|
    ensures i <= r <= |s| && (r < |s| ==> !IsSpace(s[r]))
    decreases |s| - i
  {
    if i < |s| && IsSpace(s[i]) then SkipSpace(s, i + 1) else i
  }

  function SkipLine(s: string, i: nat): (r: nat)
    requires i <= |s|
    ensures i <= r <= |s| && (i < |s| ==> i < r)
  {
    var nl := Text.Find(s, i, '\n');
    if nl < |s| then nl + 1 else |s|
  }

  function SkipBlockComment(s: string, i: nat): (r: nat)
    requires i <= |s|
    ensures i <= r <= |s|
    decreases |s| - i
  {
    if i == |s| then i
    else if StartsWith(s, i, "*/") then i + 2
    else SkipBlockComment(s, i + 1)
  }

  /** White space and comments. */
  function Blank(s: string, i: nat): (r: nat)
    requires i <= |s|
    ensures i <= r <= |s|
    decreases |s| - i
  {
    var j := SkipSpace(s, i);
    if StartsWith(s, j, "//") then Blank(s, SkipLine(s, j))
    else if StartsWith(s, j, "/*") then Blank(s, SkipBlockComment(s, j + 2))
    else j
  }

  function ExpectChar(s: string, i: nat, c: char): (r: nat)
    requires i <= |s|
    ensures i <= r <= |s|
  {
    var j := Blank(s, i);
    if PeekIs(s, j, c) then j + 1 else j
  }

  /** Skip to the next `c` and past it. */
  function SkipPast(s: string, i: nat, c: char): (r: nat)
    requires i <= |s|
    ensures i <= r <= |s| && (i < |s| ==> i < r)
  {
    Advance(s, Text.Find(s, i, c), 1)
  }

  function WhileIdent(s: string, i: nat): (r: nat)
    requires i <= |s|
    ensures i <= r <= |s|
    decreases |s| - i
  {
    if i < |s| && IsIdentChar(s[i]) then WhileIdent(s, i + 1) else i
  }

  function WhileDigits(s: string, i: nat): (r: nat)
    requires i <= |s|
    ensures i <= r <= |s| && forall k | i <= k < r :: IsDigit(s[k])
    decreases |s| - i
  {
    if i < |s| && IsDigit(s[i]) then WhileDigits(s, i + 1) else i
  }

  function WhileHex(s: string, i: nat): (r: nat)
    requires i <= |s|
    ensures i <= r <= |s| && forall k | i <= k < r :: IsHexDigit(s[k])
    decreases |s| - i
  {
    if i < |s| && IsHexDigit(s[i]) then WhileHex(s, i + 1) else i
  }

  function WhileSuffix(s: string, i: nat): (r: nat)
    requires i <= |s|
    ensures i <= r <= |s|
    decreases |s| - i
  {
    if i < |s| && IsIntSuffix(s[i]) then WhileSuffix(s, i + 1) else i
  }

  // ----- identifiers and numbers -----

  /** The next identifier, if one starts after the blanks; the cursor stops where it stands. */
  function ReadIdent(s: string, i: nat): (r: (Option<string>, nat))
    requires i <= |s|
    ensures i <= r.1 <= |s| && (r.0.Some? ==> i < r.1)
  {
    var start := Blank(s, i);
    var end := WhileIdent(s, start);
    if end > start then (Some(s[start..end]), end) else (None, start)
  }

  const TWO_63: nat := 0x8000_0000_0000_0000
  const TWO_64: nat := 0x1_0000_0000_0000_0000

  /** An array size must fit a `usize` of 64 bits. */
  function ReadArraySize(s: string, i: nat): (r: (Option<nat>, nat))
    requires i <= |s|
    ensures i <= r.1 <= |s|
  {
    var start := Blank(s, i);
    var end := WhileDigits(s, start);
    if end > start && NumberValue(s[start..end], 10) < TWO_64 then (Some(NumberValue(s[start..end], 10)), end)
    else (None, end)
  }

  /** An enumerator's value: decimal or hexadecimal, within `i64`. */
  function ReadInteger(s: string, i: nat): (r: (Option<int>, nat))
    requires i <= |s|
    ensures i <= r.1 <= |s|
  {
    var start := Blank(s, i);
    var negative := PeekIs(s, start, '-');
    var j := SkipSpace(s, if negative then start + 1 else start);
    if StartsWith(s, j, "0x") || StartsWith(s, j, "0X") then
      var end := WhileHex(s, j + 2);
      var v: int := NumberValue(s[j + 2..end], 16);
      (if end > j + 2 && v < TWO_63 then Some(if negative then -v else v) else None, WhileSuffix(s, end))
    else
      var end := WhileDigits(s, j);
      var v: int := NumberValue(s[j..end], 10);
      (if end > j && (v < TWO_63 || (negative && v == TWO_63)) then Some(if negative then -v else v) else None,
       WhileSuffix(s, end))
  }

  // ----- types -----

  predicate IsTypeKeyword(t: string) {
    t in {"void", "char", "short", "int", "long", "float", "double", "signed", "unsigned"}
  }

  predicate IsQualifier(t: string) {
    t == "const" || t == "volatile"
  }

  predicate IsTypeStart(t: string) {
    || IsTypeKeyword(t)
    || t in {"size_t", "ssize_t", "bool", "_Bool", "int8_t", "int16_t", "int32_t", "int64_t",
             "uint8_t", "uint16_t", "uint32_t", "uint64_t", "uintptr_t", "intptr_t", "ptrdiff_t",
             "struct", "enum"}
    || (t != "" && (IsUpper(t[0]) || t[0] == '_'))
  }

  function Join(tokens: seq<string>): string {
    if tokens == [] then ""
    else if |tokens| == 1 then tokens[0]
    else Join(tokens[..|tokens| - 1]) + " " + tokens[|tokens| - 1]
  }

  function ResolveTypeTokens(t: seq<string>): CType {
    if t == ["void"] then Void
    else if t == ["char"] || t == ["signed", "char"] then Char
    else if t == ["unsigned", "char"] then UChar
    else if t == ["short"] || t == ["signed", "short"] || t == ["short", "int"] || t == ["signed", "short", "int"]
    then Short
    else if t == ["unsigned", "short"] || t == ["unsigned", "short", "int"] then UShort
    else if t == ["int"] || t == ["signed"] || t == ["signed", "int"] then Int
    else if t == ["unsigned"] || t == ["unsigned", "int"] then UInt
    else if t == ["long"] || t == ["signed", "long"] || t == ["long", "int"] || t == ["signed", "long", "int"] then Long
    else if t == ["unsigned", "long"] || t == ["unsigned", "long", "int"] then ULong
    else if t == ["long", "long"] || t == ["signed", "long", "long"] || t == ["long", "long", "int"]
         || t == ["signed", "long", "long", "int"] then LongLong
    else if t == ["unsigned", "long", "long"] || t == ["unsigned", "long", "long", "int"] then ULongLong
    else if t == ["float"] then Float
    else if t == ["double"] || t == ["long", "double"] then Double
    else if t == ["size_t"] then SizeT
    else if t == ["ssize_t"] then Long
    else if t == ["bool"] || t == ["_Bool"] then Bool
    else if t == ["int8_t"] then Char
    else if t == ["int16_t"] then Short
    else if t == ["int32_t"] then Int
    else if t == ["int64_t"] then LongLong
    else if t == ["uint8_t"] then UChar
    else if t == ["uint16_t"] then UShort
    else if t == ["uint32_t"] then UInt
    else if t == ["uint64_t"] then ULongLong
    else if t == ["uintptr_t"] || t == ["intptr_t"] || t == ["ptrdiff_t"] then SizeT
    else Named(Join(t))
  }

  /** Leading qualifiers; anything else is put back. */
  function SkipQualifiers(s: string, i: nat): (r: nat)
    requires i <= |s|
    ensures i <= r <= |s|
    decreases |s| - i
  {
    var (ident, j) := ReadIdent(s, i);
    if ident.Some? && IsQualifier(ident.value) then SkipQualifiers(s, j) else i
  }

  /** The words of a base type, qualifiers in between dropped. */
  function TypeTokens(s: string, i: nat, tokens: seq<string>): (r: (seq<string>, nat))
    requires i <= |s|
    ensures i <= r.1 <= |s| && |tokens| <= |r.0| && (|r.0| > |tokens| ==> i < r.1)
    decreases |s| - i
  {
    var (ident, j) := ReadIdent(s, i);
    if ident.None? then (tokens, j)
    else if IsQualifier(ident.value) then TypeTokens(s, j, tokens)
    else if IsTypeKeyword(ident.value) || (tokens == [] && IsTypeStart(ident.value))
    then TypeTokens(s, j, tokens + [ident.value])
    else (tokens, i)
  }

  function ParseBaseType(s: string, i: nat): (r: (Option<CType>, nat))
    requires i <= |s|
    ensures i <= r.1 <= |s| && (r.0.Some? ==> i < r.1)
  {
    var (tokens, j) := TypeTokens(s, SkipQualifiers(s, Blank(s, i)), []);
    if tokens == [] then (None, j)
    else if tokens == ["struct"] || tokens == ["enum"] then
      var (name, k) := ReadIdent(s, j);
      (Some(if name.Some? then Named(name.value) else ResolveTypeTokens(tokens)), k)
    else (Some(ResolveTypeTokens(tokens)), j)
  }

  /** Qualifiers after a star; the blanks before whatever follows are consumed. */
  function AfterStar(s: string, i: nat): (r: nat)
    requires i <= |s|
    ensures i <= r <= |s|
    decreases |s| - i
  {
    var k := Blank(s, i);
    var (ident, j) := ReadIdent(s, k);
    if ident.None? then j else if IsQualifier(ident.value) then AfterStar(s, j) else k
  }

  function PointerSuffix(s: string, i: nat, ty: CType): (r: (CType, nat))
    requires i <= |s|
    ensures i <= r.1 <= |s|
    decreases |s| - i
  {
    var k := Blank(s, i);
    var (ident, j) := ReadIdent(s, k);
    var m := Blank(s, if ident.None? || IsQualifier(ident.value) then j else k);
    if PeekIs(s, m, '*') then PointerSuffix(s, AfterStar(s, m + 1), Pointer(ty)) else (ty, m)
  }

  function ParseType(s: string, i: nat): (r: (Option<CType>, nat))
    requires i <= |s|
    ensures i <= r.1 <= |s| && (r.0.Some? ==> i < r.1)
  {
    var (base, j) := ParseBaseType(s, i);
    if base.None? then (None, j)
    else
      var (ty, k) := PointerSuffix(s, j, base.value);
      (Some(ty), k)
  }

  /** A trailing `[n]` makes an array. */
  function ArraySuffix(s: string, i: nat, ty: CType): (r: (CType, nat))
    requires i <= |s|
    ensures i <= r.1 <= |s|
  {
    var k := Blank(s, i);
    if PeekIs(s, k, '[') then
      var (size, j) := ReadArraySize(s, k + 1);
      (Array(ty, size), ExpectChar(s, j, ']'))
    else (ty, k)
  }

  // ----- struct and enum bodies -----

  function StructFields(s: string, i: nat, fields: seq<CField>,
                        errors: seq<string>): (r: (seq<CField>, nat, seq<string>))
    requires i <= |s|
    ensures i <= r.1 <= |s|
    decreases |s| - i
  {
    var k := Blank(s, i);
    if PeekIs(s, k, '}') then (fields, k + 1, errors)
    else if k == |s| then (fields, k, errors + ["unexpected EOF in struct body"])
    else
      var (ty, j) := ParseType(s, k);
      if ty.None? then StructFields(s, Advance(s, Text.Find(s, j, ';'), 1), fields, errors)
      else
        var (name, m) := ReadIdent(s, Blank(s, j));
        if name.None? then StructFields(s, ExpectChar(s, m, ';'), fields, errors)
        else
          var (final, n) := ArraySuffix(s, m, ty.value);
          StructFields(s, ExpectChar(s, n, ';'), fields + [CField(name.value, final)], errors)
  }

  /** What follows an enumerator's name: its value, if given, and a comma. */
  function VariantValue(s: string, i: nat): (r: (Option<int>, nat))
    requires i <= |s|
    ensures i <= r.1 <= |s|
  {
    var m := Blank(s, i);
    var (value, n) := if PeekIs(s, m, '=') then ReadInteger(s, Blank(s, m + 1)) else (None, m);
    var e := Blank(s, n);
    (value, if PeekIs(s, e, ',') then e + 1 else e)
  }

  function EnumVariants(s: string, i: nat, variants: seq<Variant>,
                        errors: seq<string>): (r: (seq<Variant>, nat, seq<string>))
    requires i <= |s|
    ensures i <= r.1 <= |s|
    decreases |s| - i
  {
    var k := Blank(s, i);
    if PeekIs(s, k, '}') then (variants, k + 1, errors)
    else if k == |s| then (variants, k, errors + ["unexpected EOF in enum body"])
    else
      var (name, j) := ReadIdent(s, k);
      if name.None? then EnumVariants(s, Advance(s, j, 1), variants, errors)
      else
        var (value, e) := VariantValue(s, j);
        EnumVariants(s, e, variants + [Variant(name.value, value)], errors)
  }

  // ----- functions -----

  /** Past the parenthesised group that opens the attribute's argument. */
  function SkipGroup(s: string, i: nat, depth: int): (r: nat)
    requires i <= |s|
    ensures i <= r <= |s|
    decreases |s| - i
  {
    if i == |s| then i
    else if s[i] == '(' then SkipGroup(s, i + 1, depth + 1)
    else if s[i] == ')' then (if depth - 1 == 0 then i + 1 else SkipGroup(s, i + 1, depth - 1))
    else SkipGroup(s, i + 1, depth)
  }

  function SkipAttributes(s: string, i: nat): (r: nat)
    requires i <= |s|
    ensures i <= r <= |s|
  {
    var k := Blank(s, i);
    if StartsWith(s, k, "__attribute__") then
      var m := Blank(s, k + 13);
      if PeekIs(s, m, '(') then SkipGroup(s, m, 0) else m
    else k
  }

  datatype Params = Params(params: seq<CParam>, variadic: bool, pos: nat, errors: seq<string>)

  /** `void)` closes an empty list; the cursor behind the parenthesis, if it does. */
  function VoidClose(s: string, i: nat): (r: Option<nat>)
    requires i <= |s|
    ensures r.Some? ==> i < r.value <= |s|
  {
    var (ident, j) := ReadIdent(s, i);
    if ident == Some("void") && PeekIs(s, Blank(s, j), ')') then Some(Blank(s, j) + 1) else None
  }

  /** One parameter at `k`, if a type stands there, and the cursor behind it and its comma. */
  function ParamAt(s: string, k: nat, params: seq<CParam>): (r: (seq<CParam>, nat))
    requires k <= |s|
    ensures k <= r.1 <= |s|
  {
    var (ty, j) := ParseType(s, if ReadIdent(s, k).0.Some? then k else ReadIdent(s, k).1);
    var (params', n) :=
      if ty.None? then (params, j)
      else
        var m := Blank(s, j);
        if PeekIs(s, m, ',') || PeekIs(s, m, ')') || PeekIs(s, m, '.') then (params + [CParam(None, ty.value)], m)
        else
          var (name, e) := ReadIdent(s, m);
          var b := Blank(s, e);
          (params + [CParam(name, ty.value)],
           if PeekIs(s, b, '[') then ExpectChar(s, ReadArraySize(s, b + 1).1, ']') else b);
    var e := Blank(s, n);
    (params', if PeekIs(s, e, ',') then e + 1 else e)
  }

  function FunctionParams(s: string, i: nat, params: seq<CParam>, errors: seq<string>): (r: Params)
    requires i <= |s|
    ensures i <= r.pos <= |s|
    decreases |s| - i
  {
    var k := Blank(s, i);
    if PeekIs(s, k, ')') then Params(params, false, k + 1, errors)
    else if k == |s| then Params(params, false, k, errors + ["unexpected EOF in function parameters"])
    else if StartsWith(s, k, "...") then
      var m := Blank(s, k + 3);
      Params(params, true, if PeekIs(s, m, ')') then m + 1 else m, errors)
    else if VoidClose(s, k).Some? then Params(params, false, VoidClose(s, k).value, errors)
    else
      var (params', e) := ParamAt(s, k, params);
      if e <= i then Params(params', false, e, errors + ["malformed function parameters"])
      else FunctionParams(s, e, params', errors)
  }

  /** The function declared at `i`, if one is. */
  function FunctionAt(s: string, i: nat, errors: seq<string>): (r: Option<(CItem, nat, seq<string>)>)
    requires i <= |s|
    ensures r.Some? ==> i < r.value.1 <= |s|
  {
    var (ty, j) := ParseType(s, i);
    if ty.None? then None
    else
      var (name, m) := ReadIdent(s, Blank(s, j));
      var n := Blank(s, m);
      if name.None? || !PeekIs(s, n, '(') then None
      else
        var p := FunctionParams(s, n + 1, [], errors);
        var e := ExpectChar(s, SkipAttributes(s, Blank(s, p.pos)), ';');
        Some((Function(name.value, p.params, ty.value, p.variadic), e, p.errors))
  }

  function FunctionOrSkip(s: string, st: State): (r: State)
    requires Ok(s, st)
    ensures Ok(s, r) && st.pos <= r.pos && (st.pos < |s| ==> st.pos < r.pos)
  {
    match FunctionAt(s, st.pos, st.errors)
    case Some((f, e, errors)) => State(e, st.items + [f], errors)
    case None => st.(pos := SkipPast(s, st.pos, ';'))
  }

  // ----- struct, enum, typedef -----

  function StructDecl(s: string, st: State): (r: State)
    requires Ok(s, st)
    ensures Ok(s, r) && st.pos <= r.pos
  {
    var (name, j) := ReadIdent(s, Blank(s, st.pos));
    if name.None? then
      st.(errors := st.errors + ["expected struct name"], pos := ExpectChar(s, SkipPast(s, j, '}'), ';'))
    else
      var k := Blank(s, j);
      if !PeekIs(s, k, '{') then st.(pos := SkipPast(s, k, ';'))
      else
        var (fields, m, errors) := StructFields(s, k + 1, [], st.errors);
        State(ExpectChar(s, ReadIdent(s, Blank(s, m)).1, ';'), st.items + [Struct(name.value, fields)], errors)
  }

  function EnumDecl(s: string, st: State): (r: State)
    requires Ok(s, st)
    ensures Ok(s, r) && st.pos <= r.pos
  {
    var (name, j) := ReadIdent(s, Blank(s, st.pos));
    if name.None? then
      st.(errors := st.errors + ["expected enum name"], pos := ExpectChar(s, SkipPast(s, j, '}'), ';'))
    else
      var k := Blank(s, j);
      if !PeekIs(s, k, '{') then st.(pos := SkipPast(s, k, ';'))
      else
        var (variants, m, errors) := EnumVariants(s, k + 1, [], st.errors);
        State(ExpectChar(s, ReadIdent(s, Blank(s, m)).1, ';'), st.items + [Enum(name.value, variants)], errors)
  }

  function SkipStars(s: string, i: nat): (r: (nat, nat))
    requires i <= |s|
    ensures i <= r.1 <= |s|
    decreases |s| - i
  {
    if PeekIs(s, i, '*') then
      var (n, j) := SkipStars(s, Blank(s, i + 1));
      (n + 1, j)
    else (0, i)
  }

  function Pointers(n: nat, ty: CType): CType {
    if n == 0 then ty else Pointer(Pointers(n - 1, ty))
  }

  /** `{ .. } alias;` after `typedef struct [name]`; the cursor stands on the brace. */
  function TypedefStruct(s: string, tag: Option<string>, st: State): (r: State)
    requires Ok(s, st) && PeekIs(s, st.pos, '{')
    ensures Ok(s, r) && st.pos <= r.pos
  {
    var (fields, m, errors) := StructFields(s, st.pos + 1, [], st.errors);
    var (stars, n) := SkipStars(s, Blank(s, m));
    var (alias, e) := ReadIdent(s, n);
    if alias.None? then State(ExpectChar(s, e, ';'), st.items, errors)
    else
      var name := if tag.Some? then tag.value else alias.value;
      State(ExpectChar(s, e, ';'),
            st.items + [Struct(name, fields)]
            + (if stars > 0 then [Typedef(alias.value, Pointers(stars, Named(name)))]
               else if alias.value != name then [Typedef(alias.value, Named(name))] else []),
            errors)
  }

  function TypedefEnum(s: string, tag: Option<string>, st: State): (r: State)
    requires Ok(s, st) && PeekIs(s, st.pos, '{')
    ensures Ok(s, r) && st.pos <= r.pos
  {
    var (variants, m, errors) := EnumVariants(s, st.pos + 1, [], st.errors);
    var (alias, e) := ReadIdent(s, Blank(s, m));
    if alias.None? then State(ExpectChar(s, e, ';'), st.items, errors)
    else
      var name := if tag.Some? then tag.value else alias.value;
      State(ExpectChar(s, e, ';'),
            st.items + [Enum(name, variants)]
              + (if alias.value != name then [Typedef(alias.value, Named(name))] else []),
            errors)
  }

  function PlainTypedef(s: string, st: State): (r: State)
    requires Ok(s, st)
    ensures Ok(s, r) && st.pos <= r.pos
  {
    var (ty, j) := ParseType(s, st.pos);
    if ty.None? then st.(pos := SkipPast(s, j, ';'))
    else
      var (name, m) := ReadIdent(s, Blank(s, j));
      if name.None? then st.(pos := SkipPast(s, m, ';'))
      else
        var (final, n) := ArraySuffix(s, m, ty.value);
        State(ExpectChar(s, n, ';'), st.items + [Typedef(name.value, final)], st.errors)
  }

  function TypedefDecl(s: string, st: State): (r: State)
    requires Ok(s, st)
    ensures Ok(s, r) && st.pos <= r.pos
  {
    var i := Blank(s, st.pos);
    var (kw, j) := ReadIdent(s, i);
    if kw == Some("struct") || kw == Some("enum") then
      var (tag, m) := ReadIdent(s, Blank(s, j));
      var k := Blank(s, m);
      if PeekIs(s, k, '{') && kw == Some("struct") then TypedefStruct(s, tag, st.(pos := k))
      else if PeekIs(s, k, '{') then TypedefEnum(s, tag, st.(pos := k))
      else PlainTypedef(s, st.(pos := i))
    else PlainTypedef(s, st.(pos := i))
  }

  // ----- preprocessor -----

  function SkipTabs(s: string, i: nat): (r: nat)
    requires i <= |s|
    ensures i <= r <= |s|
    decreases |s| - i
  {
    if i < |s| && (s[i] == ' ' || s[i] == '\t') then SkipTabs(s, i + 1) else i
  }

  /** The end of a macro body: the first line that does not end in a backslash. */
  function MacroEnd(s: string, i: nat): (r: nat)
    requires i <= |s|
    ensures i <= r <= |s|
    decreases |s| - i
  {
    var nl := Text.Find(s, i, '\n');
    if nl == |s| then nl
    else if nl > i && s[nl - 1] == '\\' then MacroEnd(s, nl + 1)
    else nl + 1
  }

  function Unprefixed(t: string): string {
    if StartsWith(t, 0, "0x") || StartsWith(t, 0, "0X") then t[2..] else t
  }

  predicate IsSimpleConstant(t: string) {
    && t != ""
    && (|| (t[0] == '"' && t[|t| - 1] == '"')
        || (t[0] == '\'' && t[|t| - 1] == '\'')
        || var u := Unprefixed(if t[0] == '-' then t[1..] else t);
           && u != "" && IsHexDigit(u[0])
           && forall k | 0 <= k < |u| :: IsHexDigit(u[k]) || u[k] == '.' || IsIntSuffix(u[k]))
  }

  function TrimSuffix(t: string): string {
    if t != "" && (IsIntSuffix(t[|t| - 1]) || t[|t| - 1] == 'f' || t[|t| - 1] == 'F')
    then TrimSuffix(t[..|t| - 1]) else t
  }

  function StripNumericSuffix(t: string): string {
    if t != "" && (t[0] == '"' || t[0] == '\'') then t
    else if TrimSuffix(t) == "" then t
    else TrimSuffix(t)
  }

  /** The text of a macro body after its name, trimmed, and the cursor behind it. */
  function MacroBody(s: string, i: nat): (r: (string, nat))
    requires i <= |s|
    ensures i <= r.1 <= |s|
  {
    var start := SkipTabs(s, i);
    var end := MacroEnd(s, start);
    (Text.Trim(s[start..end]), end)
  }

  function DefineDirective(s: string, st: State): (r: State)
    requires Ok(s, st)
    ensures Ok(s, r) && st.pos <= r.pos
  {
    var (name, j) := ReadIdent(s, SkipSpace(s, st.pos));
    if name.None? || PeekIs(s, j, '(') then st.(pos := SkipLine(s, j))
    else
      var (value, end) := MacroBody(s, j);
      var item := Define(name.value, StripNumericSuffix(value));
      State(end, if IsSimpleConstant(value) then st.items + [item] else st.items, st.errors)
  }

  /** A directive; the cursor stands on its `#`. */
  function Preprocessor(s: string, st: State): (r: State)
    requires Ok(s, st) && st.pos < |s|
    ensures Ok(s, r) && st.pos < r.pos
  {
    var (directive, j) := ReadIdent(s, SkipSpace(s, st.pos + 1));
    if directive == Some("define") then DefineDirective(s, st.(pos := j)) else st.(pos := SkipLine(s, j))
  }

  // ----- the whole header -----

  /** The guard that follows every declaration: a cursor that did not move skips the line. */
  function Guard(s: string, start: nat, st: State): (r: State)
    requires Ok(s, st) && start <= |s|
    ensures Ok(s, r) && st.pos <= r.pos && (start < |s| && start <= st.pos ==> start < r.pos)
  {
    if st.pos <= start then st.(pos := SkipLine(s, st.pos)) else st
  }

  /** One declaration inside an `extern` block. */
  function InnerDecl(s: string, st: State): (r: State)
    requires Ok(s, st)
    ensures Ok(s, r) && st.pos <= r.pos
  {
    var (ident, j) := ReadIdent(s, st.pos);
    if ident.None? then st.(pos := SkipLine(s, j))
    else if ident.value == "typedef" then TypedefDecl(s, st.(pos := j))
    else if ident.value == "struct" then StructDecl(s, st.(pos := j))
    else if ident.value == "enum" then EnumDecl(s, st.(pos := j))
    else FunctionOrSkip(s, st)
  }

  function ExternBody(s: string, st: State): (r: State)
    requires Ok(s, st)
    ensures Ok(s, r) && st.pos <= r.pos
    decreases |s| - st.pos
  {
    var k := Blank(s, st.pos);
    if PeekIs(s, k, '}') then st.(pos := ExpectChar(s, k + 1, ';'))
    else if k == |s| then st.(pos := k)
    else ExternBody(s, Guard(s, k, InnerDecl(s, st.(pos := k))))
  }

  /** After the word `extern`: an optional string, then a block, if one opens. */
  function ExternDecl(s: string, st: State): (r: State)
    requires Ok(s, st)
    ensures Ok(s, r) && st.pos <= r.pos
  {
    var q := Blank(s, st.pos);
    var e := if PeekIs(s, q, '"') then Advance(s, Text.Find(s, q + 1, '"'), 1) else q;
    var k := Blank(s, e);
    if PeekIs(s, k, '{') then ExternBody(s, st.(pos := k + 1)) else st.(pos := k)
  }

  function TopDecl(s: string, st: State): (r: State)
    requires Ok(s, st)
    ensures Ok(s, r) && st.pos <= r.pos
  {
    var (ident, j) := ReadIdent(s, st.pos);
    if ident.None? then st.(pos := Advance(s, j, 1))
    else if ident.value == "typedef" then TypedefDecl(s, st.(pos := j))
    else if ident.value == "struct" then StructDecl(s, st.(pos := j))
    else if ident.value == "enum" then EnumDecl(s, st.(pos := j))
    else if ident.value == "extern" then ExternDecl(s, st.(pos := j))
    else FunctionOrSkip(s, st)
  }

  function Header(s: string, st: State): (r: State)
    requires Ok(s, st)
    ensures Ok(s, r) && r.pos == |s|
    decreases |s| - st.pos
  {
    var k := Blank(s, st.pos);
    if k == |s| then st.(pos := k)
    else if s[k] == '#' then Header(s, Guard(s, k, Preprocessor(s, st.(pos := k))))
    else Header(s, Guard(s, k, TopDecl(s, st.(pos := k))))
  }

  /** Items, or the errors if there were any. */
  datatype Parsed = Items(items: seq<CItem>) | Errors(errors: seq<string>)

  function ParseHeader(s: string): Parsed {
    var st := Header(s, State(0, [], []));
    if st.errors == [] then Items(st.items) else Errors(st.errors)
  }
}
