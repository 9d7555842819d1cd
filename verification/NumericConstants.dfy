/** What is left of a constant when the header parser has stripped its suffix
    (compiler/crates/kryos-bindgen/src/c_parser.rs `strip_numeric_suffix`). The characters taken
    for a suffix hold `f` and `F`, which are digits of a hexadecimal number too. */
module NumericConstants {
  import opened Wrappers
  import opened Numerals
  import opened HeaderGrammar

  // ----- which texts stay as they are -----

  predicate IsTrimmed(c: char) {
    IsIntSuffix(c) || c == 'f' || c == 'F'
  }

  predicate IsTail(t: string) {
    forall k | 0 <= k < |t| :: IsTrimmed(t[k])
  }

  predicate IsQuoted(t: string) {
    t != "" && (t[0] == '"' || t[0] == '\'')
  }

  /** Nothing at the end is taken for a suffix, or everything is. */
  predicate Survives(t: string) {
    t == "" || IsQuoted(t) || !IsTrimmed(t[|t| - 1]) || IsTail(t)
  }

  predicate EndsBare(t: string) {
    t != "" ==> !IsTrimmed(t[|t| - 1])
  }

  lemma {:induction false} TailIsTrimmed(body: string, tail: string)
    requires EndsBare(body) && IsTail(tail)
    ensures TrimSuffix(body + tail) == body
    decreases |tail|
  {
    if tail == "" {
      assert body + tail == body;
    } else {
      assert (body + tail)[..|body + tail| - 1] == body + tail[..|tail| - 1];
      TailIsTrimmed(body, tail[..|tail| - 1]);
    }
  }

  lemma {:induction false} TrimSuffixParts(t: string) returns (tail: string)
    ensures t == TrimSuffix(t) + tail && IsTail(tail) && EndsBare(TrimSuffix(t))
    decreases |t|
  {
    if t != "" && IsTrimmed(t[|t| - 1]) {
      var rest := TrimSuffixParts(t[..|t| - 1]);
      tail := rest + [t[|t| - 1]];
    } else {
      tail := "";
    }
  }

  /** A text stays as it is exactly when it is quoted, does not end in a character taken for a
      suffix, or holds nothing else. */
  lemma StaysExactly(t: string)
    ensures StripNumericSuffix(t) == t <==> Survives(t)
  {
    var tail := TrimSuffixParts(t);
    if TrimSuffix(t) == "" {
      assert t == tail;
    } else if tail != "" {
      assert t[|t| - 1] == tail[|tail| - 1];
      assert t[|TrimSuffix(t)| - 1] == TrimSuffix(t)[|TrimSuffix(t)| - 1];
    }
  }

  // ----- which numbers stay the same -----

  /** Digits of a base. */
  predicate InBase(t: string, base: nat) {
    forall k | 0 <= k < |t| :: IsHexDigit(t[k]) && DigitValue(t[k]) < base
  }

  function BaseOf(hex: bool, digits: string): nat {
    if hex then 16 else if digits != "" && digits[0] == '0' then 8 else 10
  }

  function TrimIntSuffix(t: string): string {
    if t != "" && IsIntSuffix(t[|t| - 1]) then TrimIntSuffix(t[..|t| - 1]) else t
  }

  function WithSign(negative: bool, magnitude: nat): int {
    var m: int := magnitude;
    if negative then -m else m
  }

  /** The integer that C takes a text for: a sign, a prefix, digits, and a suffix of `u` and `l`. */
  function Denoted(t: string): Option<int> {
    var negative := t != "" && t[0] == '-';
    var unsigned := if negative then t[1..] else t;
    var body := Unprefixed(unsigned);
    var digits := TrimIntSuffix(body);
    var base := BaseOf(body != unsigned, digits);
    if digits != "" && InBase(digits, base) then Some(WithSign(negative, NumberValue(digits, base))) else None
  }

  datatype Numeral = Numeral(negative: bool, prefix: string, digits: string, suffix: string)
  {
    predicate IsHex() {
      prefix != ""
    }

    function Base(): nat {
      BaseOf(IsHex(), digits)
    }

    predicate Valid() {
      && (prefix == "" || prefix == "0x" || prefix == "0X")
      && digits != "" && InBase(digits, Base())
      && forall k | 0 <= k < |suffix| :: IsIntSuffix(suffix[k])
    }

    function Unsigned(): string {
      prefix + (digits + suffix)
    }

    function Mark(): string {
      if negative then "-" else ""
    }

    function Text(): string {
      Mark() + Unsigned()
    }

    function Value(): int {
      WithSign(negative, NumberValue(digits, Base()))
    }

    /** The last digit is taken for a suffix. */
    predicate EndsInF() {
      IsHex() && digits != "" && (digits[|digits| - 1] == 'f' || digits[|digits| - 1] == 'F')
    }
  }

  lemma {:induction false} IntSuffixIsTrimmed(digits: string, suffix: string)
    requires digits != "" ==> !IsIntSuffix(digits[|digits| - 1])
    requires forall k | 0 <= k < |suffix| :: IsIntSuffix(suffix[k])
    ensures TrimIntSuffix(digits + suffix) == digits
    decreases |suffix|
  {
    if suffix == "" {
      assert digits + suffix == digits;
    } else {
      assert (digits + suffix)[..|digits + suffix| - 1] == digits + suffix[..|suffix| - 1];
      IntSuffixIsTrimmed(digits, suffix[..|suffix| - 1]);
    }
  }

  lemma PrefixIsTaken(prefix: string, body: string)
    requires prefix == "0x" || prefix == "0X"
    ensures Unprefixed(prefix + body) == body
  {
    assert (prefix + body)[..2] == prefix && (prefix + body)[2..] == body;
  }

  lemma NoPrefixIsTaken(digits: string, suffix: string)
    requires digits != "" && IsDigit(digits[0]) && (|digits| > 1 ==> IsDigit(digits[1]))
    requires suffix != "" ==> IsIntSuffix(suffix[0])
    ensures Unprefixed(digits + suffix) == digits + suffix
  {
    var t := digits + suffix;
    if |t| >= 2 {
      assert t[1] != 'x' && t[1] != 'X';
      assert t[..2][1] == t[1] && "0x"[1] == 'x' && "0X"[1] == 'X';
    }
  }

  lemma UnsignedParts(n: Numeral)
    requires n.Valid()
    ensures Unprefixed(n.Unsigned()) == n.digits + n.suffix
    ensures n.Unsigned() != "" && IsDigit(n.Unsigned()[0])
  {
    hide Unprefixed, NumberValue;
    if n.IsHex() {
      PrefixIsTaken(n.prefix, n.digits + n.suffix);
    } else {
      NoPrefixIsTaken(n.digits, n.suffix);
      assert "" + (n.digits + n.suffix) == n.digits + n.suffix;
    }
  }

  lemma DigitsAreRead(n: Numeral)
    requires n.Valid()
    ensures TrimIntSuffix(n.digits + n.suffix) == n.digits
    ensures n.IsHex() <==> n.digits + n.suffix != n.Unsigned()
  {
    assert !IsIntSuffix(n.digits[|n.digits| - 1]);
    hide NumberValue, DigitValue;
    IntSuffixIsTrimmed(n.digits, n.suffix);
    assert |n.Unsigned()| == |n.prefix| + |n.digits + n.suffix|;
    if !n.IsHex() {
      assert "" + (n.digits + n.suffix) == n.digits + n.suffix;
    }
  }

  lemma MarkIsRead(n: Numeral)
    requires n.Valid()
    ensures var t := n.Text();
            t != "" && (n.negative <==> t[0] == '-') && (if n.negative then t[1..] else t) == n.Unsigned()
    ensures !IsQuoted(n.Text())
  {
    UnsignedParts(n);
    hide NumberValue, Unprefixed, InBase;
    assert n.negative ==> n.Text()[0] == '-' && n.Text()[1..] == n.Unsigned();
    assert !n.negative ==> n.Text() == n.Unsigned();
  }

  /** A numeral denotes its value. */
  lemma NumeralIsDenoted(n: Numeral)
    requires n.Valid()
    ensures Denoted(n.Text()) == Some(n.Value())
  {
    UnsignedParts(n);
    DigitsAreRead(n);
    MarkIsRead(n);
    hide Unprefixed, NumberValue, TrimIntSuffix, InBase, IsDigit, IsQuoted, WithSign, Numeral.Text, Numeral.Unsigned;
  }

  lemma Regroup(a: string, b: string, c: string, d: string, e: string)
    ensures a + (b + ((c + d) + e)) == (a + (b + c)) + (d + e)
  {
  }

  lemma BareEnd(a: string, b: string)
    requires b != "" && EndsBare(b)
    ensures EndsBare(a + b)
  {
    assert (a + b)[|a + b| - 1] == b[|b| - 1];
  }

  /** What stripping leaves of a numeral: its sign, its prefix, and its digits up to the first of
      those at the end that are taken for a suffix. */
  lemma StrippedNumeral(n: Numeral)
    requires n.Valid()
    ensures StripNumericSuffix(n.Text()) == n.Mark() + (n.prefix + TrimSuffix(n.digits))
  {
    var kept := TrimSuffix(n.digits);
    var tail := TrimSuffixParts(n.digits);
    assert IsTail(tail + n.suffix);
    MarkIsRead(n);
    BareBeforeTail(n);
    Regroup(n.Mark(), n.prefix, kept, tail, n.suffix);
    hide IsTail, EndsBare, TrimSuffix, Numeral.Valid, Numeral.Mark, IsIntSuffix;
    TailIsTrimmed(n.Mark() + (n.prefix + kept), tail + n.suffix);
    StripsUnquoted(n.Text());
  }

  lemma StripsUnquoted(t: string)
    requires !IsQuoted(t) && TrimSuffix(t) != ""
    ensures StripNumericSuffix(t) == TrimSuffix(t)
  {
  }

  lemma BareBeforeTail(n: Numeral)
    requires n.Valid()
    ensures var left := n.Mark() + (n.prefix + TrimSuffix(n.digits)); left != "" && EndsBare(left)
  {
    var kept := TrimSuffix(n.digits);
    var tail := TrimSuffixParts(n.digits);
    assert n.IsHex() ==> EndsBare(n.prefix);
    assert kept == "" ==> n.IsHex() by {
      if !n.IsHex() {
        FirstIsNoSuffix(n);
      }
      assert kept == "" ==> n.digits == tail;
    }
    hide EndsBare, IsTail, TrimSuffix, Numeral.Valid, IsIntSuffix;
    if kept == "" {
      assert n.prefix + kept == n.prefix;
      BareEnd(n.Mark(), n.prefix);
    } else {
      BareEnd(n.prefix, kept);
      BareEnd(n.Mark(), n.prefix + kept);
    }
  }

  lemma FirstIsNoSuffix(n: Numeral)
    requires n.Valid() && !n.IsHex()
    ensures !IsTrimmed(n.digits[0]) && !IsTail(n.digits)
  {
    assert DigitValue(n.digits[0]) < 10;
  }

  lemma {:induction false} TailOfFsGrows(body: string, tail: string)
    requires tail != "" && forall k | 0 <= k < |tail| :: tail[k] == 'f' || tail[k] == 'F'
    ensures NumberValue(body + tail, 16) > NumberValue(body, 16)
    decreases |tail|
  {
    var init, last := tail[..|tail| - 1], tail[|tail| - 1];
    assert body + tail == (body + init) + [last];
    LastDigit(body + init, last, 16);
    if init == "" {
      assert body + init == body;
    } else {
      TailOfFsGrows(body, init);
    }
  }

  /** The number survives exactly when it is not a hexadecimal one that ends in `f` or `F`. A
      suffix of `u` and `l` does no harm. */
  lemma NumberSurvivesExactly(n: Numeral)
    requires n.Valid()
    ensures Denoted(StripNumericSuffix(n.Text())) == Some(n.Value()) <==> !n.EndsInF()
  {
    hide *;
    if n.EndsInF() {
      DigitsAreLost(n);
    } else {
      DigitsAreKept(n);
    }
  }

  lemma BareText(negative: bool, prefix: string, digits: string)
    ensures var bare := Numeral(negative, prefix, digits, ""); bare.Text() == bare.Mark() + (prefix + digits)
  {
    assert digits + "" == digits;
  }

  lemma DigitsAreKept(n: Numeral)
    requires n.Valid() && !n.EndsInF()
    ensures Denoted(StripNumericSuffix(n.Text())) == Some(n.Value())
  {
    StrippedNumeral(n);
    BareText(n.negative, n.prefix, n.digits);
    NoTail(n);
    hide Denoted, StripNumericSuffix, TrimSuffix, Numeral.Text, NumberValue;
    NumeralIsDenoted(n.(suffix := ""));
  }

  lemma NoTail(n: Numeral)
    requires n.Valid() && !n.EndsInF()
    ensures TrimSuffix(n.digits) == n.digits
  {
    assert EndsBare(n.digits);
    TailIsTrimmed(n.digits, "");
    assert n.digits + "" == n.digits;
  }

  /** The tail of the digits, which holds nothing but `f` and `F`. */
  lemma LostTail(n: Numeral) returns (tail: string)
    requires n.Valid() && n.EndsInF()
    ensures n.digits == TrimSuffix(n.digits) + tail && tail != ""
    ensures forall k | 0 <= k < |tail| :: tail[k] == 'f' || tail[k] == 'F'
    ensures InBase(TrimSuffix(n.digits), 16)
  {
    tail := TrimSuffixParts(n.digits);
    hide TrimSuffix, NumberValue;
    var kept := TrimSuffix(n.digits);
    assert forall k | 0 <= k < |tail| :: tail[k] == n.digits[|kept| + k];
    assert forall k | 0 <= k < |kept| :: kept[k] == n.digits[k];
  }

  lemma DigitsAreLost(n: Numeral)
    requires n.Valid() && n.EndsInF()
    ensures Denoted(StripNumericSuffix(n.Text())) != Some(n.Value())
  {
    StrippedNumeral(n);
    var tail := LostTail(n);
    var kept := TrimSuffix(n.digits);
    TailOfFsGrows(kept, tail);
    BareText(n.negative, n.prefix, kept);
    hide Denoted, StripNumericSuffix, TrimSuffix, Numeral.Text, NumberValue, InBase;
    if kept == "" {
      NoDigitsDenoteNothing(n.negative, n.prefix);
    } else {
      NumeralIsDenoted(Numeral(n.negative, n.prefix, kept, ""));
    }
  }

  lemma NoDigitsDenoteNothing(negative: bool, prefix: string)
    requires prefix == "0x" || prefix == "0X"
    ensures Denoted(Numeral(negative, prefix, "", "").Mark() + (prefix + "")) == None
  {
    var t := Numeral(negative, prefix, "", "").Mark() + (prefix + "");
    assert negative ==> t[1..] == prefix + "";
    PrefixIsTaken(prefix, "");
    hide Unprefixed;
  }

  // ----- two inputs -----

  /** A mask loses its digits: nothing is left that denotes a number. */
  lemma MaskIsLost()
    ensures StripNumericSuffix("0xFF") == "0x" && Denoted("0xFF") == Some(255) && Denoted("0x") == None
  {
    var n := Numeral(false, "0x", "FF", "");
    MaskDigits();
    hide Denoted, StripNumericSuffix, TrimSuffix, NumberValue, InBase;
    NumeralIsDenoted(n);
    StrippedNumeral(n);
    NoDigitsDenoteNothing(false, "0x");
    assert "" + ("0x" + ("FF" + "")) == "0xFF" && "" + ("0x" + "") == "0x";
  }

  lemma MaskDigits()
    ensures TrimSuffix("FF") == "" && NumberValue("FF", 16) == 255 && InBase("FF", 16)
  {
    TailIsTrimmed("", "FF");
    assert "" + "FF" == "FF";
    LastDigit("F", 'F', 16);
    LastDigit("", 'F', 16);
    assert "F" + ['F'] == "FF" && "" + ['F'] == "F";
  }

  /** A decimal loses its suffix and keeps its value. */
  lemma SuffixIsLost()
    ensures StripNumericSuffix("10UL") == "10" && Denoted("10UL") == Some(10) && Denoted("10") == Some(10)
  {
    var n := Numeral(false, "", "10", "UL");
    TenDigits();
    hide Denoted, StripNumericSuffix, TrimSuffix, NumberValue, InBase;
    NumeralIsDenoted(n);
    NumeralIsDenoted(n.(suffix := ""));
    StrippedNumeral(n);
    assert "" + ("" + ("10" + "UL")) == "10UL" && "" + ("" + ("10" + "")) == "10" && "" + ("" + "10") == "10";
  }

  lemma TenDigits()
    ensures TrimSuffix("10") == "10" && NumberValue("10", 10) == 10 && InBase("10", 10)
  {
    TailIsTrimmed("10", "");
    assert "10" + "" == "10";
    LastDigit("1", '0', 10);
    LastDigit("", '1', 10);
    assert "1" + ['0'] == "10" && "" + ['1'] == "1";
  }
}
