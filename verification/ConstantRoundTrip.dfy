/** Headers of one integer constant: when the number is read back
    (compiler/crates/kryos-bindgen/src/c_parser.rs `parse_define`, `strip_numeric_suffix`). */
module ConstantRoundTrip {
  import opened Wrappers
  import opened Numerals
  import opened HeaderGrammar
  import opened HeaderLayout
  import opened NumericConstants
  import opened DefineRoundTrip
  import opened DeclarationRoundTrip
  import Text

  predicate IsPlain(c: char) {
    IsHexDigit(c) || IsIntSuffix(c) || c == 'x' || c == 'X' || c == '-'
  }

  lemma PlainIsTrimmed(t: string)
    requires t != "" && forall k | 0 <= k < |t| :: IsPlain(t[k])
    ensures ValueOk(t)
  {
  }

  lemma NumeralIsPlain(n: Numeral)
    requires n.Valid()
    ensures n.Text() != "" && forall k | 0 <= k < |n.Text()| :: IsPlain(n.Text()[k])
  {
    hide NumberValue, DigitValue;
  }

  lemma DigitsAreSimple(t: string, body: string)
    requires t != "" && Unprefixed(if t[0] == '-' then t[1..] else t) == body
    requires body != "" && IsHexDigit(body[0])
    requires forall k | 0 <= k < |body| :: IsHexDigit(body[k]) || IsIntSuffix(body[k])
    ensures IsSimpleConstant(t)
  {
    hide Unprefixed, IsHexDigit;
  }

  lemma BodyIsDigits(n: Numeral)
    requires n.Valid()
    ensures var body := n.digits + n.suffix;
            && body != "" && IsHexDigit(body[0])
            && forall k | 0 <= k < |body| :: IsHexDigit(body[k]) || IsIntSuffix(body[k])
  {
    hide NumberValue, DigitValue, IsHexDigit, IsIntSuffix;
  }

  lemma NumeralIsConstant(n: Numeral)
    requires n.Valid()
    ensures IsSimpleConstant(n.Text()) && n.Text() != "" && ValueOk(n.Text())
  {
    hide Unprefixed, Numeral.Text, Numeral.Unsigned, Numeral.Valid, IsQuoted, IsHexDigit, IsIntSuffix, IsSimpleConstant,
         IsPlain, ValueOk;
    NumeralIsPlain(n);
    PlainIsTrimmed(n.Text());
    BodyIsDigits(n);
    MarkIsRead(n);
    UnsignedParts(n);
    DigitsAreSimple(n.Text(), n.digits + n.suffix);
  }

  /** A header of one constant. */
  function ConstantHeader(name: string, value: string): string {
    "#define " + name + " " + value + "\n"
  }

  function ConstantLine(name: string, value: string): Line {
    Constant("", " ", name, " ", value, "")
  }

  lemma ConstantText(name: string, value: string)
    ensures LineText(ConstantLine(name, value)) == ConstantHeader(name, value)
  {
    var l := ConstantLine(name, value);
    var tail := " " + value;
    assert l.lead + (l.value + l.trail) == tail;
    assert Head(l) == "#" + ("" + ("define" + (" " + (name + tail))));
    ConstantPieces(name, value);
    hide Head, Tail;
  }

  lemma ConstantPieces(name: string, value: string)
    ensures "#" + ("" + ("define" + (" " + (name + (" " + value))))) == "#define " + name + " " + value
  {
    assert "" + ("define" + (" " + (name + (" " + value)))) == "define" + (" " + (name + (" " + value)));
    Regrouped("#", "define", " " + (name + (" " + value)));
    Regrouped("#define", " ", name + (" " + value));
    Regrouped("#define ", name, " " + value);
    Regrouped("#define " + name, " ", value);
    assert "#" + "define" == "#define" && "#define" + " " == "#define ";
  }

  lemma OneConstantIsRead(name: string, value: string)
    requires IsWord(name) && ValueOk(value) && IsSimpleConstant(value)
    ensures ParseHeader(ConstantHeader(name, value)) == Items([Define(name, StripNumericSuffix(value))])
  {
    hide ParseHeader, IsSimpleConstant, StripNumericSuffix, ValueOk, IsWord, LineText;
    var l := ConstantLine(name, value);
    var u := Single(Directive(l));
    var gaps: seq<Gap> := [[], []];
    ConstantText(name, value);
    assert HeaderTokens([]) == [] && [u][1..] == [];
    assert HeaderTokens([u]) == [LineText(l)];
    assert ReadHeader([]) == [];
    assert ReadHeader([u]) == [Define(name, StripNumericSuffix(value))];
    OneTokenText(LineText(l));
    DeclarationsAreParsed([u], gaps);
  }

  /** One token without gaps. */
  lemma OneTokenText(t: Token)
    ensures GapsOk([t], [[], []]) && Layout([t], [[], []]) == t
  {
    var gaps: seq<Gap> := [[], []];
    assert GapText([]) == "" && [t][1..] == [] && gaps[1..] == [[]];
    assert Layout([], [[]]) == "";
    assert "" + (t + "") == t;
  }

  /** A header that defines an integer, in any base and with any suffix: the value that is read
      back denotes the same number exactly when the number is not a hexadecimal one that ends in
      `f` or `F`. */
  lemma NumberIsReadBackExactly(name: string, n: Numeral)
    requires IsWord(name) && n.Valid()
    ensures Denoted(n.Text()) == Some(n.Value())
    ensures ParseHeader(ConstantHeader(name, n.Text())) == Items([Define(name, StripNumericSuffix(n.Text()))])
    ensures Denoted(StripNumericSuffix(n.Text())) == Some(n.Value()) <==> !n.EndsInF()
  {
    hide ParseHeader, ConstantHeader, IsWord, Denoted, StripNumericSuffix, Numeral.Valid, Numeral.Text, ValueOk,
         Numeral.Value, IsSimpleConstant;
    NumeralIsConstant(n);
    NumeralIsDenoted(n);
    NumberSurvivesExactly(n);
    OneConstantIsRead(name, n.Text());
  }

  lemma MaskIsConstant()
    ensures IsWord("MASK") && ValueOk("0xFF") && IsSimpleConstant("0xFF")
  {
    var mask := Numeral(false, "0x", "FF", "");
    MaskDigits();
    assert mask.Text() == "0xFF";
    hide IsSimpleConstant, InBase, NumberValue, ValueOk;
    NumeralIsConstant(mask);
  }

  lemma TenIsConstant()
    ensures ValueOk("10UL") && IsSimpleConstant("10UL")
  {
    var ten := Numeral(false, "", "10", "UL");
    TenDigits();
    assert ten.Text() == "10UL";
    hide IsSimpleConstant, InBase, NumberValue, ValueOk;
    NumeralIsConstant(ten);
  }

  /** `0xFF` comes back as `0x`, which is no number; `10UL` as `10`. */
  lemma MaskIsReadBackEmpty()
    ensures ParseHeader(ConstantHeader("MASK", "0xFF")) == Items([Define("MASK", "0x")])
    ensures ParseHeader(ConstantHeader("MASK", "10UL")) == Items([Define("MASK", "10")])
  {
    hide *;
    MaskIsConstant();
    TenIsConstant();
    MaskIsLost();
    SuffixIsLost();
    OneConstantIsRead("MASK", "0xFF");
    OneConstantIsRead("MASK", "10UL");
  }
}
