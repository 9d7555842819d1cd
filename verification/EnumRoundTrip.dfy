/** C enumerators with their values: decimal, hexadecimal or octal, with sign and suffix. The header
    parser (compiler/crates/kryos-bindgen/src/c_parser.rs `parse_enum_variants`,
    `parse_integer_value`) reads a leading zero as decimal. */
module EnumRoundTrip {
  import opened Wrappers
  import opened Numerals
  import opened HeaderGrammar
  import opened HeaderLayout
  import opened PrototypeRoundTrip
  import opened NumericConstants

  // ----- values -----

  predicate InI64(negative: bool, magnitude: nat) {
    magnitude < TWO_63 || (negative && magnitude == TWO_63)
  }

  /** The parser knows two bases, and takes no hexadecimal `-0x8000000000000000`. */
  function ReadValue(n: Numeral): Option<int> {
    var m := NumberValue(n.digits, if n.IsHex() then 16 else 10);
    if InI64(n.negative && !n.IsHex(), m) then Some(WithSign(n.negative, m)) else None
  }

  /** An octal number has the same value in decimal if it has one digit besides zeros. */
  predicate ReadsAlike(n: Numeral) {
    if n.Base() == 8 then forall k | 0 <= k < |n.digits| - 1 :: n.digits[k] == '0'
    else InI64(n.negative && !n.IsHex(), NumberValue(n.digits, n.Base()))
  }

  lemma {:induction false} OctalIsLess(t: string)
    requires InBase(t, 8)
    ensures NumberValue(t, 8) <= NumberValue(t, 10)
    ensures NumberValue(t, 8) == 0 <==> forall k | 0 <= k < |t| :: t[k] == '0'
    ensures NumberValue(t, 8) == NumberValue(t, 10) <==> forall k | 0 <= k < |t| - 1 :: t[k] == '0'
    decreases |t|
  {
    if t != "" {
      var init, last := t[..|t| - 1], t[|t| - 1];
      assert t == init + [last];
      OctalIsLess(init);
      LastDigit(init, last, 8);
      LastDigit(init, last, 10);
      OctalDigit(last);
      hide NumberValue, DigitValue, IsHexDigit;
      var a, b := NumberValue(init, 8), NumberValue(init, 10);
      assert a * 8 <= b * 10 && (a * 8 == b * 10 <==> a == 0 && b == 0);
      assert a == 0 ==> forall k | 0 <= k < |init| - 1 :: init[k] == '0';
    }
  }

  lemma OctalDigit(c: char)
    requires IsHexDigit(c) && DigitValue(c) < 8
    ensures DigitValue(c) == 0 <==> c == '0'
  {
  }

  lemma SmallOctal(t: string)
    requires InBase(t, 8) && t != "" && forall k | 0 <= k < |t| - 1 :: t[k] == '0'
    ensures NumberValue(t, 8) < 8
  {
    var init, last := t[..|t| - 1], t[|t| - 1];
    assert t == init + [last];
    LastDigit(init, last, 8);
    OctalIsLess(init);
  }

  /** A value is read as C means it exactly if it fits and no octal digit is taken for a decimal one. */
  lemma ValueIsReadExactly(n: Numeral)
    requires n.Valid()
    ensures ReadValue(n) == Some(n.Value()) <==> ReadsAlike(n)
  {
    hide NumberValue, InBase;
    if n.Base() == 8 {
      OctalIsLess(n.digits);
      if NumberValue(n.digits, 8) == NumberValue(n.digits, 10) {
        SmallOctal(n.digits);
      }
    }
  }

  // ----- reading a number -----

  lemma {:induction false} WhileHexReads(s: string, i: nat, w: string)
    requires StartsWith(s, i, w) && forall k | 0 <= k < |w| :: IsHexDigit(w[k])
    requires i + |w| < |s| ==> !IsHexDigit(s[i + |w|])
    ensures WhileHex(s, i) == i + |w|
    decreases |w|
  {
    if w != "" {
      CharAt(s, i, w, 0);
      assert w == [w[0]] + w[1..];
      SplitAt(s, i, [w[0]], w[1..]);
      WhileHexReads(s, i + 1, w[1..]);
    }
  }

  lemma {:induction false} WhileSuffixReads(s: string, i: nat, w: string)
    requires StartsWith(s, i, w) && forall k | 0 <= k < |w| :: IsIntSuffix(w[k])
    requires i + |w| < |s| ==> !IsIdentChar(s[i + |w|])
    ensures WhileSuffix(s, i) == i + |w|
    decreases |w|
  {
    if w != "" {
      CharAt(s, i, w, 0);
      assert w == [w[0]] + w[1..];
      SplitAt(s, i, [w[0]], w[1..]);
      WhileSuffixReads(s, i + 1, w[1..]);
    }
  }

  predicate IsSuffix(t: string) {
    forall k | 0 <= k < |t| :: IsIntSuffix(t[k])
  }

  /** Digits, their suffix, and no identifier character behind. */
  predicate DigitsStand(s: string, i: nat, digits: string, suffix: string) {
    && StartsWith(s, i, digits) && StartsWith(s, i + |digits|, suffix) && IsSuffix(suffix)
    && var e := i + |digits| + |suffix|;
       e < |s| ==> !IsIdentChar(s[e])
  }

  lemma BehindDigits(s: string, i: nat, digits: string, suffix: string)
    requires DigitsStand(s, i, digits, suffix)
    ensures var e := i + |digits|; e < |s| ==> !IsHexDigit(s[e])
  {
    if suffix != "" {
      CharAt(s, i + |digits|, suffix, 0);
    }
  }

  lemma HexIsRead(s: string, i: nat, digits: string, suffix: string)
    requires DigitsStand(s, i, digits, suffix) && InBase(digits, 16)
    ensures var e := i + |digits|;
            && WhileHex(s, i) == e && s[i..e] == digits && WhileSuffix(s, e) == e + |suffix|
  {
    BehindDigits(s, i, digits, suffix);
    WhileHexReads(s, i, digits);
    WhileSuffixReads(s, i + |digits|, suffix);
  }

  lemma DecimalIsRead(s: string, i: nat, digits: string, suffix: string)
    requires DigitsStand(s, i, digits, suffix) && AllDigits(digits)
    ensures var e := i + |digits|;
            && WhileDigits(s, i) == e && s[i..e] == digits && WhileSuffix(s, e) == e + |suffix|
  {
    BehindDigits(s, i, digits, suffix);
    WhileDigitsReads(s, i, digits);
    WhileSuffixReads(s, i + |digits|, suffix);
  }

  lemma FourParts(s: string, k: nat, mark: string, prefix: string, digits: string, suffix: string)
    requires StartsWith(s, k, mark + (prefix + (digits + suffix)))
    ensures var j := k + |mark|; var d := j + |prefix|;
            && StartsWith(s, k, mark) && StartsWith(s, j, prefix + (digits + suffix)) && StartsWith(s, j, prefix)
            && StartsWith(s, d, digits) && StartsWith(s, d + |digits|, suffix)
  {
    hide StartsWith;
    SplitAt(s, k, mark, prefix + (digits + suffix));
    SplitAt(s, k + |mark|, prefix, digits + suffix);
    SplitAt(s, k + |mark| + |prefix|, digits, suffix);
  }

  lemma NumeralLength(n: Numeral)
    requires n.Valid()
    ensures |n.Text()| == |n.Mark()| + |n.prefix| + |n.digits| + |n.suffix| && IsSuffix(n.suffix)
    ensures n.Text() == n.Mark() + n.Unsigned() && n.Unsigned() == n.prefix + (n.digits + n.suffix)
  {
    hide NumberValue, InBase;
  }

  lemma NumeralOpens(n: Numeral)
    requires n.Valid()
    ensures n.Text() != "" && (n.negative <==> n.Text()[0] == '-') && n.Unsigned() != "" && IsDigit(n.Unsigned()[0])
  {
    hide NumberValue, InBase, Unprefixed, Numeral.Valid, Numeral.Text, Numeral.Unsigned, IsQuoted;
    MarkIsRead(n);
    UnsignedParts(n);
  }

  lemma NumeralStarts(s: string, k: nat, n: Numeral)
    requires n.Valid() && StartsWith(s, k, n.Text())
    ensures var j := k + |n.Mark()|;
            && k < |s| && j < |s| && (n.negative <==> s[k] == '-') && IsDigit(s[j]) && StartsWith(s, j, n.Unsigned())
  {
    hide NumberValue, InBase, StartsWith, Numeral.Valid, Numeral.Text, Numeral.Mark, IsDigit, Numeral.Unsigned;
    NumeralOpens(n);
    NumeralLength(n);
    SplitAt(s, k, n.Mark(), n.Unsigned());
    CharAt(s, k, n.Text(), 0);
    CharAt(s, k + |n.Mark()|, n.Unsigned(), 0);
  }

  /** The parts of a numeral that stands at `k`. */
  lemma NumeralParts(s: string, k: nat, n: Numeral)
    requires n.Valid() && StartsWith(s, k, n.Text())
    requires var e := k + |n.Text()|; e < |s| ==> !IsIdentChar(s[e])
    ensures var j := k + |n.Mark()|; var d := j + |n.prefix|;
            && k < |s| && j < |s| && (n.negative <==> s[k] == '-') && IsDigit(s[j])
            && StartsWith(s, j, n.prefix) && DigitsStand(s, d, n.digits, n.suffix)
            && k + |n.Text()| == d + |n.digits| + |n.suffix|
  {
    hide NumberValue, InBase, StartsWith, Numeral.Valid, Numeral.Text, Numeral.Mark, IsSuffix, IsDigit, IsIdentChar,
         Numeral.Unsigned;
    NumeralStarts(s, k, n);
    NumeralLength(n);
    FourParts(s, k, n.Mark(), n.prefix, n.digits, n.suffix);
  }

  /** A decimal number is not taken for a hexadecimal one. */
  lemma NoHexMark(s: string, j: nat, digits: string, suffix: string)
    requires DigitsStand(s, j, digits, suffix) && AllDigits(digits) && digits != ""
    ensures !StartsWith(s, j, "0x") && !StartsWith(s, j, "0X")
  {
    if |digits| > 1 {
      CharAt(s, j, digits, 1);
    } else if suffix != "" {
      CharAt(s, j + 1, suffix, 0);
    }
    NotThere(s, j, "0x", 1);
    NotThere(s, j, "0X", 1);
  }

  lemma HexMark(s: string, j: nat, prefix: string)
    requires StartsWith(s, j, prefix) && (prefix == "0x" || prefix == "0X")
    ensures StartsWith(s, j, "0x") || StartsWith(s, j, "0X")
  {
  }

  lemma LowBase(digits: string, base: nat)
    requires InBase(digits, base) && base <= 10
    ensures AllDigits(digits)
  {
  }

  /** Behind the sign, where the parser stands. */
  lemma SignIsRead(s: string, k: nat, n: Numeral)
    requires n.Valid() && StartsWith(s, k, n.Text())
    requires var e := k + |n.Text()|; e < |s| ==> !IsIdentChar(s[e])
    ensures var start := if PeekIs(s, k, '-') then k + 1 else k;
            && k < |s| && start <= |s| && start == k + |n.Mark()| && SkipSpace(s, start) == start
            && PeekIs(s, k, '-') == n.negative
  {
    NumeralParts(s, k, n);
    hide NumberValue, InBase, StartsWith, DigitsStand, Numeral.Text, Numeral.Valid;
    assert |n.Mark()| == if n.negative then 1 else 0;
  }

  /** What the parser reads, given where its loops stop. */
  lemma IntegerFrom(s: string, k: nat, j: nat, hex: bool, digits: string, e: nat, f: nat)
    requires k <= j <= |s| && Blank(s, k) == k && j == (if PeekIs(s, k, '-') then k + 1 else k) && SkipSpace(s, j) == j
    requires hex <==> StartsWith(s, j, "0x") || StartsWith(s, j, "0X")
    requires var d := if hex then j + 2 else j;
             && d < e <= |s| && (if hex then WhileHex(s, d) else WhileDigits(s, d)) == e && s[d..e] == digits
             && WhileSuffix(s, e) == f
    ensures var m := NumberValue(digits, if hex then 16 else 10); var negative := PeekIs(s, k, '-');
            ReadInteger(s, k) == (if InI64(negative && !hex, m) then Some(WithSign(negative, m)) else None, f)
  {
    hide NumberValue, Blank, StartsWith, WhileHex, WhileDigits, WhileSuffix, SkipSpace, PeekIs;
  }

  lemma HexNumeralIsRead(s: string, k: nat, n: Numeral)
    requires n.Valid() && n.IsHex() && StartsWith(s, k, n.Text()) && Blank(s, k) == k
    requires var e := k + |n.Text()|; e < |s| ==> !IsIdentChar(s[e])
    ensures ReadInteger(s, k) == (ReadValue(n), k + |n.Text()|)
  {
    hide NumberValue, InBase, Blank, StartsWith, DigitsStand, WhileHex, WhileSuffix, SkipSpace, Numeral.Text,
         Numeral.Mark, IsDigit, IsIdentChar, PeekIs, ReadInteger;
    var j := k + |n.Mark()|;
    var e := j + 2 + |n.digits|;
    NumeralParts(s, k, n);
    SignIsRead(s, k, n);
    HexMark(s, j, n.prefix);
    HexIsRead(s, j + 2, n.digits, n.suffix);
    IntegerFrom(s, k, j, true, n.digits, e, e + |n.suffix|);
  }

  lemma DecimalNumeralIsRead(s: string, k: nat, n: Numeral)
    requires n.Valid() && !n.IsHex() && StartsWith(s, k, n.Text()) && Blank(s, k) == k
    requires var e := k + |n.Text()|; e < |s| ==> !IsIdentChar(s[e])
    ensures ReadInteger(s, k) == (ReadValue(n), k + |n.Text()|)
  {
    hide NumberValue, InBase, Blank, StartsWith, DigitsStand, WhileDigits, WhileSuffix, SkipSpace, Numeral.Text,
         Numeral.Mark, IsDigit, IsIdentChar, PeekIs, ReadInteger, AllDigits;
    var j := k + |n.Mark()|;
    var e := j + |n.digits|;
    NumeralParts(s, k, n);
    SignIsRead(s, k, n);
    LowBase(n.digits, n.Base());
    NoHexMark(s, j, n.digits, n.suffix);
    DecimalIsRead(s, j, n.digits, n.suffix);
    IntegerFrom(s, k, j, false, n.digits, e, e + |n.suffix|);
  }

  lemma NumeralIsRead(s: string, k: nat, n: Numeral)
    requires n.Valid() && StartsWith(s, k, n.Text()) && Blank(s, k) == k
    requires var e := k + |n.Text()|; e < |s| ==> !IsIdentChar(s[e])
    ensures ReadInteger(s, k) == (ReadValue(n), k + |n.Text()|)
  {
    hide *;
    if n.IsHex() {
      HexNumeralIsRead(s, k, n);
    } else {
      DecimalNumeralIsRead(s, k, n);
    }
  }

  lemma LastOf(a: string, b: string)
    requires b != ""
    ensures (a + b)[|a + b| - 1] == b[|b| - 1]
  {
  }

  lemma DigitsEndInWord(n: Numeral)
    requires n.Valid()
    ensures n.digits + n.suffix != "" && EndsInWord(n.digits + n.suffix)
  {
    hide NumberValue, DigitValue;
    if n.suffix != "" {
      LastOf(n.digits, n.suffix);
    } else {
      assert n.digits + n.suffix == n.digits;
    }
  }

  lemma NumeralEnds(n: Numeral)
    requires n.Valid()
    ensures EndsInWord(n.Text())
  {
    hide NumberValue, Numeral.Valid, InBase, IsIdentChar, Numeral.Text, Numeral.Unsigned, Numeral.Mark;
    NumeralLength(n);
    DigitsEndInWord(n);
    LastOf(n.prefix, n.digits + n.suffix);
    LastOf(n.Mark(), n.Unsigned());
  }

  lemma NumeralIsToken(n: Numeral)
    requires n.Valid()
    ensures TokenOk(n.Text()) && EndsInWord(n.Text())
  {
    hide NumberValue, Numeral.Valid, InBase, Numeral.Unsigned;
    NumeralEnds(n);
    NumeralOpens(n);
    assert !n.negative ==> n.Text() == n.Unsigned();
  }

  lemma ValueIsRead(s: string, i: nat, n: Numeral, rest: seq<Token>)
    requires n.Valid() && At(s, i, [n.Text()] + rest)
    ensures i <= |s| && ReadInteger(s, Blank(s, i)).0 == ReadValue(n) && At(s, ReadInteger(s, Blank(s, i)).1, rest)
  {
    hide Blank, Numeral.Text, Numeral.Valid, ReadInteger, ReadValue;
    var toks := [n.Text()] + rest;
    Next(s, i, toks);
    NumeralIsToken(n);
    assert toks[0] == n.Text() && toks[1..] == rest;
    NumeralIsRead(s, Blank(s, i), n);
  }

  // ----- enumerators -----

  datatype Enumerator = Enumerator(name: string, value: Option<Numeral>)

  predicate EnumeratorOk(v: Enumerator) {
    IsWord(v.name) && (v.value.Some? ==> v.value.value.Valid())
  }

  predicate EnumeratorsOk(vs: seq<Enumerator>) {
    forall k | 0 <= k < |vs| :: EnumeratorOk(vs[k])
  }

  function ValueTokens(n: Option<Numeral>): seq<Token> {
    if n.Some? then ["=", n.value.Text()] else []
  }

  /** Enumerators between commas; the last comma is optional. */
  function EnumTokens(vs: seq<Enumerator>, comma: bool): seq<Token> {
    if vs == [] then []
    else [vs[0].name] + (ValueTokens(vs[0].value)
                         + ((if |vs| > 1 || comma then [","] else []) + EnumTokens(vs[1..], comma)))
  }

  function ReadEnumerator(v: Enumerator): Variant {
    Variant(v.name, if v.value.Some? then ReadValue(v.value.value) else None)
  }

  function ReadEnumerators(vs: seq<Enumerator>): seq<Variant> {
    seq(|vs|, k requires 0 <= k < |vs| => ReadEnumerator(vs[k]))
  }

  function EnumeratorMeaning(v: Enumerator): Variant {
    Variant(v.name, if v.value.Some? then Some(v.value.value.Value()) else None)
  }

  function EnumeratorsMeaning(vs: seq<Enumerator>): seq<Variant> {
    seq(|vs|, k requires 0 <= k < |vs| => EnumeratorMeaning(vs[k]))
  }

  predicate EnumeratorsAlike(vs: seq<Enumerator>) {
    forall k | 0 <= k < |vs| :: vs[k].value.Some? ==> ReadsAlike(vs[k].value.value)
  }

  lemma EnumeratorsAreReadExactly(vs: seq<Enumerator>)
    requires EnumeratorsOk(vs)
    ensures ReadEnumerators(vs) == EnumeratorsMeaning(vs) <==> EnumeratorsAlike(vs)
  {
    hide ReadsAlike, Numeral.Valid, Numeral.Value, ReadValue;
    forall k | 0 <= k < |vs|
      ensures ReadEnumerators(vs)[k] == EnumeratorsMeaning(vs)[k] <==>
                (vs[k].value.Some? ==> ReadsAlike(vs[k].value.value))
    {
      assert EnumeratorOk(vs[k]);
      if vs[k].value.Some? {
        ValueIsReadExactly(vs[k].value.value);
      }
    }
  }

  /** What follows an enumerator. */
  predicate EndsEnumerator(rest: seq<Token>) {
    rest != [] && (rest[0] == "," || rest[0] == "}" || IsWord(rest[0]))
  }

  lemma EnumeratorEnds(s: string, n: nat, rest: seq<Token>)
    requires At(s, n, rest) && EndsEnumerator(rest)
    ensures n <= |s| && var e := Blank(s, n); At(s, if PeekIs(s, e, ',') then e + 1 else e, Behind(rest))
  {
    hide At, Blank;
    InText(s, n, rest);
    assert IsWord(rest[0]) ==> IsIdentChar(rest[0][0]);
    SymbolIsPeeked(s, n, ',', rest);
    BlankIsSkipped(s, n, rest);
  }

  lemma VariantValueIsRead(s: string, i: nat, v: Enumerator, rest: seq<Token>)
    requires EnumeratorOk(v) && At(s, i, ValueTokens(v.value) + rest) && EndsEnumerator(rest)
    ensures i <= |s| && VariantValue(s, i).0 == ReadEnumerator(v).value && At(s, VariantValue(s, i).1, Behind(rest))
  {
    hide At, Blank, ReadInteger, ReadValue, Numeral.Text, Numeral.Valid, Behind, EndsEnumerator;
    var toks := ValueTokens(v.value) + rest;
    InText(s, i, toks);
    SymbolIsPeeked(s, i, '=', toks);
    BlankIsSkipped(s, i, toks);
    if v.value.Some? {
      var number := [v.value.value.Text()] + rest;
      assert toks[0] == "=" && toks[1..] == number;
      ValueIsRead(s, Blank(s, i) + 1, v.value.value, rest);
      EnumeratorEnds(s, ReadInteger(s, Blank(s, Blank(s, i) + 1)).1, rest);
    } else {
      assert toks == rest;
      NoEqualsSign(rest);
      EnumeratorEnds(s, Blank(s, i), rest);
    }
  }

  lemma NoEqualsSign(rest: seq<Token>)
    requires EndsEnumerator(rest)
    ensures rest != [] && rest[0] != "" && rest[0][0] != '='
  {
    assert IsWord(rest[0]) ==> IsIdentChar(rest[0][0]);
  }

  /** What stands behind the first enumerator. */
  function EnumTail(vs: seq<Enumerator>, comma: bool, rest: seq<Token>): seq<Token>
    requires vs != []
  {
    (if |vs| > 1 || comma then [","] else []) + (EnumTokens(vs[1..], comma) + (["}"] + rest))
  }

  lemma FirstParts(name: string, value: seq<Token>, sep: seq<Token>, more: seq<Token>, close: seq<Token>)
    ensures [name] + (value + (sep + more)) + close == [name] + (value + (sep + (more + close)))
  {
    assert sep + more + close == sep + (more + close);
    assert value + (sep + more) + close == value + (sep + (more + close));
  }

  lemma EnumParts(vs: seq<Enumerator>, comma: bool, rest: seq<Token>)
    requires vs != [] && EnumeratorsOk(vs)
    ensures EnumTokens(vs, comma) + (["}"] + rest)
         == [vs[0].name] + (ValueTokens(vs[0].value) + EnumTail(vs, comma, rest))
    ensures EndsEnumerator(EnumTail(vs, comma, rest))
    ensures Behind(EnumTail(vs, comma, rest)) == EnumTokens(vs[1..], comma) + (["}"] + rest)
  {
    hide ValueTokens, IsWord, EnumeratorOk;
    var sep := if |vs| > 1 || comma then [","] else [];
    var more, close := EnumTokens(vs[1..], comma), ["}"] + rest;
    FirstParts(vs[0].name, ValueTokens(vs[0].value), sep, more, close);
    if sep == [] {
      assert vs[1..] == [] && more == [] && sep + (more + close) == close;
    } else {
      assert (sep + (more + close))[0] == "," && (sep + (more + close))[1..] == more + close;
    }
  }

  lemma EnumCloses(s: string, i: nat, done: seq<Variant>, errors: seq<string>, rest: seq<Token>)
    requires At(s, i, ["}"] + rest)
    ensures i <= |s| && var r := EnumVariants(s, i, done, errors); r.0 == done && r.2 == errors && At(s, r.1, rest)
  {
    hide At, Blank, ReadIdent, VariantValue;
    var toks := ["}"] + rest;
    InText(s, i, toks);
    assert toks[0] == "}" && toks[1..] == rest;
    SymbolIsPeeked(s, i, '}', toks);
  }

  /** One turn of the enumerator loop. */
  lemma EnumeratorStep(s: string, i: nat, v: Enumerator, done: seq<Variant>, errors: seq<string>, rest: seq<Token>)
    requires EnumeratorOk(v) && At(s, i, [v.name] + (ValueTokens(v.value) + rest)) && EndsEnumerator(rest)
    ensures i <= |s| && rest != []
    ensures exists e: nat :: e <= |s| && At(s, e, Behind(rest))
              && EnumVariants(s, i, done, errors) == EnumVariants(s, e, done + [ReadEnumerator(v)], errors)
  {
    hide At, Blank, ReadIdent, VariantValue, ValueTokens, Behind, EndsEnumerator, IsWord;
    var behind := ValueTokens(v.value) + rest;
    var toks := [v.name] + behind;
    InText(s, i, toks);
    var k := Blank(s, i);
    assert toks[0] == v.name && toks[1..] == behind;
    WordIsNext(s, i, toks);
    BlankIsSkipped(s, i, toks);
    TagIsRead(s, k, v.name, behind);
    VariantValueIsRead(s, ReadIdent(s, k).1, v, rest);
    NoEqualsSign(rest);
    InText(s, VariantValue(s, ReadIdent(s, k).1).1, Behind(rest));
  }

  lemma WordIsNext(s: string, i: nat, toks: seq<Token>)
    requires At(s, i, toks) && toks != [] && IsWord(toks[0])
    ensures i <= |s| && var k := Blank(s, i); k < |s| && !PeekIs(s, k, '}') && s[k] != '#' && IsIdentChar(s[k])
  {
    hide Blank, Stands;
    Next(s, i, toks);
    assert IsIdentChar(toks[0][0]);
  }

  lemma {:induction false} VariantsAreRead(s: string, i: nat, vs: seq<Enumerator>, comma: bool, done: seq<Variant>,
                                           errors: seq<string>, rest: seq<Token>)
    requires EnumeratorsOk(vs) && At(s, i, EnumTokens(vs, comma) + (["}"] + rest))
    ensures i <= |s|
    ensures var r := EnumVariants(s, i, done, errors);
            r.0 == done + ReadEnumerators(vs) && r.2 == errors && At(s, r.1, rest)
    decreases |vs|
  {
    hide At, EnumVariants, EnumTail, ValueTokens, Behind, EndsEnumerator, ReadEnumerator, EnumeratorOk;
    if vs == [] {
      assert EnumTokens(vs, comma) + (["}"] + rest) == ["}"] + rest;
      EnumCloses(s, i, done, errors, rest);
      assert done + ReadEnumerators(vs) == done;
    } else {
      hide EnumTokens;
      EnumParts(vs, comma, rest);
      EnumeratorStep(s, i, vs[0], done, errors, EnumTail(vs, comma, rest));
      var e: nat :| e <= |s| && At(s, e, EnumTokens(vs[1..], comma) + (["}"] + rest))
        && EnumVariants(s, i, done, errors) == EnumVariants(s, e, done + [ReadEnumerator(vs[0])], errors);
      VariantsAreRead(s, e, vs[1..], comma, done + [ReadEnumerator(vs[0])], errors, rest);
      assert done + [ReadEnumerator(vs[0])] + ReadEnumerators(vs[1..]) == done + ReadEnumerators(vs);
    }
  }
}
