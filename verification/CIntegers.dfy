// Integer literals in build.rs: `parse_c_integer`.
module CIntegers {
  import opened Outcomes
  import opened CText

  const I64_MIN: int := -0x8000_0000_0000_0000
  const I64_MAX: int := 0x7FFF_FFFF_FFFF_FFFF

  /* Reading */

  predicate IsSuffix(c: char) { c == 'u' || c == 'U' || c == 'l' || c == 'L' }

  // `char::to_digit` for radix 10 and 16.
  function DigitOf(c: char, radix: nat): (d: Option<nat>)
    requires radix == 10 || radix == 16
    ensures d.Some? ==> d.value < radix
  {
    if IsDigit(c) then Some(c as int - '0' as int)
    else if radix == 16 && 'a' <= c <= 'f' then Some(c as int - 'a' as int + 10)
    else if radix == 16 && 'A' <= c <= 'F' then Some(c as int - 'A' as int + 10)
    else None
  }

  function Magnitude(s: string, radix: nat): Option<nat>
    requires radix == 10 || radix == 16
  {
    if s == [] then Some(0)
    else
      match (Magnitude(s[..|s| - 1], radix), DigitOf(s[|s| - 1], radix))
      case (Some(high), Some(low)) => Some(high * radix + low)
      case _ => None
  }

  // `i64::from_str_radix`: an optional sign, at least one digit, and a value in
  // range.
  function FromRadix(s: string, radix: nat): Option<int>
    requires radix == 10 || radix == 16
  {
    var signed := s != [] && (s[0] == '-' || s[0] == '+');
    var digits := if signed then s[1..] else s;
    if digits == [] then None
    else
      match Magnitude(digits, radix)
      case None => None
      case Some(n) =>
        var v := if signed && s[0] == '-' then -(n as int) else n as int;
        if I64_MIN <= v <= I64_MAX then Some(v) else None
  }

  function ParseCInteger(s: string): Option<int> {
    var t := TrimEnd(Trim(s), IsSuffix);
    if StartsWith(t, "0x") || StartsWith(t, "0X") then FromRadix(t[2..], 16) else FromRadix(t, 10)
  }

  /* Writing */

  function DigitChar(d: nat, upper: bool): (c: char)
    requires d < 16
    ensures DigitOf(c, 16) == Some(d) && (d < 10 ==> DigitOf(c, 10) == Some(d))
    ensures !IsSuffix(c) && !IsBlank(c) && c != '-' && c != '+' && IsIdent(c) && (d > 0 ==> c != '0')
  {
    if d < 10 then '0' + d as char
    else if upper then 'A' + (d - 10) as char
    else 'a' + (d - 10) as char
  }

  function Digits(n: nat, radix: nat, upper: bool): (s: string)
    requires radix == 10 || radix == 16
    ensures s != [] && !IsSuffix(s[|s| - 1]) && !IsBlank(s[0]) && !IsBlank(s[|s| - 1])
    ensures s[0] != '-' && s[0] != '+' && All(s, IsIdent)
    ensures radix == 10 ==> All(s, IsDigit)
  {
    if n < radix then [DigitChar(n, upper)]
    else Digits(n / radix, radix, upper) + [DigitChar(n % radix, upper)]
  }

  lemma Recompose(n: nat, radix: nat)
    requires radix == 10 || radix == 16
    ensures (n / radix) * radix + n % radix == n
  {
    if radix == 10 {
      assert (n / 10) * 10 + n % 10 == n;
    } else {
      assert (n / 16) * 16 + n % 16 == n;
    }
  }

  lemma MagnitudeSnoc(s: string, c: char, radix: nat)
    requires radix == 10 || radix == 16
    requires Magnitude(s, radix).Some? && DigitOf(c, radix).Some?
    ensures Magnitude(s + [c], radix) == Some(Magnitude(s, radix).value * radix + DigitOf(c, radix).value)
  {
    assert (s + [c])[..|s|] == s;
  }

  lemma DigitIsDigit(d: nat, radix: nat, upper: bool)
    requires d < radix && (radix == 10 || radix == 16)
    ensures DigitOf(DigitChar(d, upper), radix) == Some(d)
  {
  }

  lemma MagnitudeOfDigit(d: nat, radix: nat, upper: bool)
    requires d < radix && (radix == 10 || radix == 16)
    ensures Magnitude([DigitChar(d, upper)], radix) == Some(d)
  {
    var c := DigitChar(d, upper);
    DigitIsDigit(d, radix, upper);
    assert [] + [c] == [c] && Magnitude([], radix) == Some(0);
    MagnitudeSnoc([], c, radix);
  }

  lemma {:induction false} MagnitudeOfDigits(n: nat, radix: nat, upper: bool)
    requires radix == 10 || radix == 16
    ensures Magnitude(Digits(n, radix, upper), radix) == Some(n)
  {
    hide Magnitude, DigitOf;
    if n < radix {
      MagnitudeOfDigit(n, radix, upper);
    } else {
      DigitIsDigit(n % radix, radix, upper);
      MagnitudeOfDigits(n / radix, radix, upper);
      MagnitudeSnoc(Digits(n / radix, radix, upper), DigitChar(n % radix, upper), radix);
      Recompose(n, radix);
    }
  }

  // A literal as C writes it: no octal form.
  datatype Literal = Dec(value: int, suffix: string) | Hex(value: int, upperX: bool, upper: bool, suffix: string)

  predicate ValidLiteral(l: Literal) {
    I64_MIN <= l.value <= I64_MAX && (l.Hex? ==> l.value >= 0) && All(l.suffix, IsSuffix)
  }

  function DecimalText(v: int): string {
    if v < 0 then "-" + Digits(-v, 10, false) else Digits(v, 10, false)
  }

  function LiteralText(l: Literal): string
    requires ValidLiteral(l)
  {
    match l
    case Dec(v, suffix) => DecimalText(v) + suffix
    case Hex(v, upperX, upper, suffix) => (if upperX then "0X" else "0x") + Digits(v, 16, upper) + suffix
  }

  lemma {:induction false} SuffixKeepsSolid(body: string, suffix: string)
    requires Solid(body) && All(suffix, IsSuffix)
    requires forall c :: c in body ==> IsIdent(c) || c == '-'
    ensures Solid(body + suffix)
    ensures forall c :: c in body + suffix ==> IsIdent(c) || c == '-'
  {
    if suffix != [] { assert IsSuffix(suffix[|suffix| - 1]); }
  }

  lemma {:induction false} LiteralTextIsSolid(l: Literal)
    requires ValidLiteral(l)
    ensures Solid(LiteralText(l))
    ensures forall c :: c in LiteralText(l) ==> IsIdent(c) || c == '-'
  {
    match l
    case Dec(v, suffix) =>
      SuffixKeepsSolid(DecimalText(v), suffix);
    case Hex(v, upperX, upper, suffix) =>
      var body := (if upperX then "0X" else "0x") + Digits(v, 16, upper);
      SuffixKeepsSolid(body, suffix);
  }

  lemma {:induction false} DecimalNeverHex(v: int)
    ensures !StartsWith(DecimalText(v), "0x") && !StartsWith(DecimalText(v), "0X")
  {
    var t := DecimalText(v);
    if v < 0 {
      assert t[0] == '-';
    } else if |t| >= 2 {
      assert IsDigit(t[1]);
      assert t[..2][1] == t[1];
    }
  }

  lemma {:induction false} ParseDecimal(v: int, suffix: string)
    requires I64_MIN <= v <= I64_MAX && All(suffix, IsSuffix)
    ensures TrimEnd(DecimalText(v) + suffix, IsSuffix) == DecimalText(v)
    ensures FromRadix(DecimalText(v), 10) == Some(v)
  {
    hide Digits, Magnitude, All, TrimEnd;
    var body := DecimalText(v);
    TrimEndOf(body, suffix, IsSuffix);
    if v < 0 {
      assert body[1..] == Digits(-v, 10, false);
      MagnitudeOfDigits(-v, 10, false);
    } else {
      MagnitudeOfDigits(v, 10, false);
    }
  }

  lemma {:induction false} ParseHex(v: nat, prefix: string, upper: bool, suffix: string)
    requires v <= I64_MAX && All(suffix, IsSuffix) && (prefix == "0x" || prefix == "0X")
    ensures var body := prefix + Digits(v, 16, upper);
      && TrimEnd(body + suffix, IsSuffix) == body && StartsWith(body, prefix)
      && FromRadix(body[2..], 16) == Some(v)
  {
    var body := prefix + Digits(v, 16, upper);
    TrimEndOf(body, suffix, IsSuffix);
    assert body[..2] == prefix && body[2..] == Digits(v, 16, upper);
    MagnitudeOfDigits(v, 16, upper);
  }

  // `parse_c_integer` reads back every value of the 64-bit range from its
  // decimal spelling and every non-negative one from its hexadecimal spelling,
  // with any suffix and any padding.
  lemma {:induction false} ParseLiteral(left: string, l: Literal, right: string)
    requires ValidLiteral(l) && All(left, IsBlank) && All(right, IsBlank)
    ensures ParseCInteger(left + LiteralText(l) + right) == Some(l.value)
  {
    LiteralTextIsSolid(l);
    TrimOf(left, LiteralText(l), right);
    match l
    case Dec(v, suffix) =>
      ParseDecimal(v, suffix);
      DecimalNeverHex(v);
    case Hex(v, upperX, upper, suffix) =>
      ParseHex(v, if upperX then "0X" else "0x", upper, suffix);
  }

  lemma {:induction false} ParsePlain(l: Literal)
    requires ValidLiteral(l)
    ensures ParseCInteger(LiteralText(l)) == Some(l.value)
  {
    hide LiteralText;
    assert [] + LiteralText(l) + [] == LiteralText(l);
    ParseLiteral([], l, []);
  }

  /* Exactly what is read */

  function Signed(negative: bool, n: nat): int {
    if negative then -(n as int) else n as int
  }

  // A spelling: padding, prefix, sign, digits with their values, suffix, padding.
  datatype Spelling = Spelling(
    left: string, prefix: string, sign: string, digits: string, values: seq<nat>, suffix: string, right: string)

  predicate HasValue(c: char, d: nat) {
    d < 16 && (c == "0123456789abcdef"[d] || c == "0123456789ABCDEF"[d])
  }

  function Positional(values: seq<nat>, radix: nat): nat {
    if values == [] then 0 else Positional(values[..|values| - 1], radix) * radix + values[|values| - 1]
  }

  function Body(w: Spelling): string {
    w.prefix + w.sign + w.digits
  }

  function RadixOf(w: Spelling): nat {
    if w.prefix == "" then 10 else 16
  }

  predicate DigitsAre(digits: string, values: seq<nat>, radix: nat) {
    && |values| == |digits|
    && forall i :: 0 <= i < |digits| ==> HasValue(digits[i], values[i]) && values[i] < radix
  }

  predicate Wellformed(w: Spelling) {
    && All(w.left, IsBlank) && All(w.right, IsBlank)
    && (w.prefix == "" || w.prefix == "0x" || w.prefix == "0X")
    && (w.sign == "" || w.sign == "-" || w.sign == "+")
    && w.digits != [] && DigitsAre(w.digits, w.values, RadixOf(w))
    && forall c :: c in w.suffix ==> c in "uUlL"
  }

  // `w` spells `v` as `s`, and `v` is a 64-bit integer.
  predicate Spells(w: Spelling, s: string, v: int) {
    && Wellformed(w)
    && s == w.left + (Body(w) + w.suffix) + w.right
    && v == Signed(w.sign == "-", Positional(w.values, RadixOf(w)))
    && -0x8000_0000_0000_0000 <= v <= 0x7FFF_FFFF_FFFF_FFFF
  }

  lemma DigitHasValue(c: char, d: nat)
    ensures DigitOf(c, 16) == Some(d) <==> HasValue(c, d)
    ensures DigitOf(c, 10) == Some(d) <==> HasValue(c, d) && d < 10
    ensures HasValue(c, d) ==> !IsSuffix(c) && !IsBlank(c) && c != '-' && c != '+' && c != 'x' && c != 'X'
  {
    var lower, upper := "0123456789abcdef", "0123456789ABCDEF";
    assert forall k: nat :: k < 10 ==> lower[k] == upper[k] == ('0' as int + k) as char;
    assert forall k: nat :: 10 <= k < 16 ==>
      lower[k] == ('a' as int + k - 10) as char && upper[k] == ('A' as int + k - 10) as char;
  }

  lemma {:induction false} MagnitudeIsPositional(digits: string, values: seq<nat>, radix: nat)
    requires (radix == 10 || radix == 16) && DigitsAre(digits, values, radix)
    ensures Magnitude(digits, radix) == Some(Positional(values, radix))
  {
    hide DigitOf, HasValue;
    if digits != [] {
      var n := |digits| - 1;
      MagnitudeIsPositional(digits[..n], values[..n], radix);
      DigitHasValue(digits[n], values[n]);
    }
  }

  lemma {:induction false} MagnitudeHasDigits(digits: string, radix: nat) returns (values: seq<nat>)
    requires (radix == 10 || radix == 16) && Magnitude(digits, radix).Some?
    ensures DigitsAre(digits, values, radix)
  {
    hide DigitOf, HasValue;
    values := [];
    if digits != [] {
      var n := |digits| - 1;
      var front := MagnitudeHasDigits(digits[..n], radix);
      var last := DigitOf(digits[n], radix).value;
      DigitHasValue(digits[n], last);
      values := front + [last];
    }
  }

  lemma SuffixChars(s: string)
    ensures All(s, IsSuffix) <==> forall c :: c in s ==> c in "uUlL"
  {
    assert forall c :: IsSuffix(c) <==> c in "uUlL";
  }

  // Where a body starts and ends.
  lemma BodyEdges(w: Spelling)
    requires Wellformed(w)
    ensures var b := Body(w); b != [] && !IsSuffix(b[|b| - 1]) && Solid(b)
  {
    hide HasValue, IsSuffix, IsBlank;
    var b, n := Body(w), |w.digits| - 1;
    SpellingChars();
    DigitHasValue(w.digits[0], w.values[0]);
    DigitHasValue(w.digits[n], w.values[n]);
    assert b[|b| - 1] == w.digits[n];
    assert b[0] == if w.prefix != "" then w.prefix[0] else if w.sign != "" then w.sign[0] else w.digits[0];
  }

  lemma SpellingChars()
    ensures !IsBlank('0') && !IsBlank('-') && !IsBlank('+')
  {
  }

  lemma BodyPrefix(w: Spelling)
    requires Wellformed(w)
    ensures w.prefix == "" ==> !StartsWith(Body(w), "0x") && !StartsWith(Body(w), "0X")
    ensures w.prefix != "" ==> (StartsWith(Body(w), "0x") || StartsWith(Body(w), "0X"))
    ensures w.prefix != "" ==> Body(w)[2..] == w.sign + w.digits
  {
    hide HasValue, IsSuffix, IsBlank, All;
    var b := Body(w);
    if w.prefix == "" {
      DigitHasValue(w.digits[0], w.values[0]);
      assert b == w.sign + w.digits;
      if |b| >= 2 {
        assert b[..2][0] == b[0] && b[..2][1] == b[1];
        if w.sign == "" { DigitHasValue(w.digits[1], w.values[1]); }
      }
    } else {
      assert b[..2] == w.prefix && b[0] == w.prefix[0];
    }
  }

  lemma SuffixedSolid(b: string, suffix: string)
    requires Solid(b) && All(suffix, IsSuffix)
    ensures Solid(b + suffix)
  {
    if suffix != [] { assert IsSuffix(suffix[|suffix| - 1]); }
  }

  // The sign is taken off the digits.
  lemma SignTaken(sign: string, digits: string)
    requires (sign == "" || sign == "-" || sign == "+") && digits != [] && digits[0] != '-' && digits[0] != '+'
    ensures var t := sign + digits;
      && t != [] && ((t[0] == '-' || t[0] == '+') <==> sign != "") && (t[0] == '-' <==> sign == "-")
      && (if sign != "" then t[1..] else t) == digits
  {
  }

  lemma {:induction false} SignedRead(sign: string, digits: string, values: seq<nat>, radix: nat)
    requires (sign == "" || sign == "-" || sign == "+") && digits != []
    requires (radix == 10 || radix == 16) && DigitsAre(digits, values, radix)
    ensures var v := Signed(sign == "-", Positional(values, radix));
      FromRadix(sign + digits, radix) == if I64_MIN <= v <= I64_MAX then Some(v) else None
  {
    hide HasValue, Magnitude, Positional;
    DigitHasValue(digits[0], values[0]);
    MagnitudeIsPositional(digits, values, radix);
    SignTaken(sign, digits);
  }

  // Every spelling is read as the value it spells, and as nothing when that is
  // not a 64-bit integer.
  lemma {:induction false} SpellingIsRead(w: Spelling)
    requires Wellformed(w)
    ensures var v := Signed(w.sign == "-", Positional(w.values, RadixOf(w)));
      ParseCInteger(w.left + (Body(w) + w.suffix) + w.right) ==
        if -0x8000_0000_0000_0000 <= v <= 0x7FFF_FFFF_FFFF_FFFF then Some(v) else None
  {
    hide HasValue, Trim, TrimEnd, FromRadix, Solid, StartsWith, Body;
    SuffixChars(w.suffix);
    BodyEdges(w);
    BodyPrefix(w);
    SuffixedSolid(Body(w), w.suffix);
    TrimOf(w.left, Body(w) + w.suffix, w.right);
    TrimEndOf(Body(w), w.suffix, IsSuffix);
    SignedRead(w.sign, w.digits, w.values, RadixOf(w));
    NoPrefix(w);
  }

  lemma NoPrefix(w: Spelling)
    ensures w.prefix == "" ==> Body(w) == w.sign + w.digits
  {
    assert "" + w.sign == w.sign;
  }

  // And nothing else is read.
  lemma {:induction false} ReadIsSigned(body: string, radix: nat)
      returns (sign: string, digits: string, values: seq<nat>)
    requires (radix == 10 || radix == 16) && FromRadix(body, radix).Some?
    ensures body == sign + digits && (sign == "" || sign == "-" || sign == "+") && digits != []
    ensures DigitsAre(digits, values, radix)
    ensures FromRadix(body, radix) == Some(Signed(sign == "-", Positional(values, radix)))
    ensures I64_MIN <= FromRadix(body, radix).value <= I64_MAX
  {
    hide HasValue, Magnitude, Positional;
    sign := if body[0] == '-' then "-" else if body[0] == '+' then "+" else "";
    digits := if sign == "" then body else body[1..];
    assert body == sign + digits;
    values := MagnitudeHasDigits(digits, radix);
    MagnitudeIsPositional(digits, values, radix);
  }

  lemma PrefixTaken(t: string) returns (prefix: string, body: string)
    ensures t == prefix + body && (prefix == "" || prefix == "0x" || prefix == "0X")
    ensures prefix == "" <==> !StartsWith(t, "0x") && !StartsWith(t, "0X")
    ensures body == if prefix == "" then t else t[2..]
  {
    prefix := if StartsWith(t, "0x") then "0x" else if StartsWith(t, "0X") then "0X" else "";
    body := if prefix == "" then t else t[2..];
  }

  lemma {:induction false} ReadIsSpelled(s: string) returns (w: Spelling)
    requires ParseCInteger(s).Some?
    ensures Spells(w, s, ParseCInteger(s).value)
  {
    hide Trim, TrimEnd, FromRadix, DigitsAre, Positional, StartsWith, Solid;
    var left, right := TrimCuts(s);
    var suffix := TrimEndCuts(Trim(s), IsSuffix);
    SuffixChars(suffix);
    var prefix, body := PrefixTaken(TrimEnd(Trim(s), IsSuffix));
    var sign, digits, values := ReadIsSigned(body, if prefix == "" then 10 else 16);
    w := Spelling(left, prefix, sign, digits, values, suffix, right);
    Grouped(prefix, sign, digits);
  }

  lemma Grouped(prefix: string, sign: string, digits: string)
    ensures prefix + sign + digits == prefix + (sign + digits)
  {
  }

  lemma {:induction false} ParseExactly(s: string, v: int)
    ensures ParseCInteger(s) == Some(v) <==> exists w :: Spells(w, s, v)
  {
    hide ParseCInteger, Wellformed, Positional;
    if ParseCInteger(s) == Some(v) {
      var w := ReadIsSpelled(s);
    }
    if w :| Spells(w, s, v) {
      SpellingIsRead(w);
    }
  }

  /* Octal */

  predicate IsOctal(c: char) { '0' <= c <= '7' }

  // The value section 6.4.4.1 of ISO/IEC 9899:2011 gives an octal literal.
  function Octal(ds: string): nat
    requires All(ds, IsOctal)
  {
    if ds == [] then 0 else 8 * Octal(ds[..|ds| - 1]) + (ds[|ds| - 1] as int - '0' as int)
  }

  predicate AllZero(ds: string) {
    forall k :: 0 <= k < |ds| ==> ds[k] == '0'
  }

  lemma {:induction false} DecimalAgainstOctal(ds: string)
    requires All(ds, IsOctal)
    ensures Magnitude(ds, 10).Some? && Magnitude(ds, 10).value >= Octal(ds)
    ensures Magnitude(ds, 10).value == 0 <==> AllZero(ds)
    ensures Magnitude(ds, 10).value == Octal(ds) <==> ds == [] || AllZero(ds[..|ds| - 1])
    ensures ds != [] && AllZero(ds[..|ds| - 1]) ==> Magnitude(ds, 10).value <= 7
  {
    if ds != [] {
      var high, last := ds[..|ds| - 1], ds[|ds| - 1];
      DecimalAgainstOctal(high);
      assert DigitOf(last, 10) == Some(last as int - '0' as int);
      assert AllZero(ds) <==> AllZero(high) && last == '0' by {
        assert forall k :: 0 <= k < |high| ==> high[k] == ds[k];
      }
    }
  }

  lemma {:induction false} ZeroInFront(ds: string)
    requires All(ds, IsOctal)
    ensures Magnitude("0" + ds, 10) == Magnitude(ds, 10)
  {
    if ds == [] {
      assert "0" + ds == "0" && "0"[..0] == "";
    } else {
      ZeroInFront(ds[..|ds| - 1]);
      assert ("0" + ds)[..|"0" + ds| - 1] == "0" + ds[..|ds| - 1];
    }
  }

  function OctalText(negative: bool, ds: string): string {
    (if negative then "-0" else "0") + ds
  }

  // A leading zero does not make a literal octal. Whatever the sign, the digits,
  // the suffix and the padding, the decimal value is read, or nothing if that is
  // out of range; it is the value in C if and only if every digit before the
  // last is zero.
  lemma {:induction false} LeadingZeroIsDecimal(left: string, negative: bool, ds: string, suffix: string, right: string)
    requires All(ds, IsOctal) && All(suffix, IsSuffix) && All(left, IsBlank) && All(right, IsBlank)
    ensures Magnitude(ds, 10).Some?
    ensures var read := ParseCInteger(left + (OctalText(negative, ds) + suffix) + right);
      var v := Signed(negative, Magnitude(ds, 10).value);
      && read == (if I64_MIN <= v <= I64_MAX then Some(v) else None)
      && (read == Some(Signed(negative, Octal(ds))) <==> ds == [] || AllZero(ds[..|ds| - 1]))
  {
    hide Magnitude, TrimEnd, Trim, Octal;
    var body := OctalText(negative, ds);
    assert forall c :: c in body ==> IsIdent(c) || c == '-';
    SuffixKeepsSolid(body, suffix);
    TrimOf(left, body + suffix, right);
    TrimEndOf(body, suffix, IsSuffix);
    NeverHex(negative, ds);
    ZeroInFront(ds);
    DecimalAgainstOctal(ds);
    assert negative ==> body[1..] == "0" + ds;
  }

  lemma NeverHex(negative: bool, ds: string)
    requires All(ds, IsOctal)
    ensures var body := OctalText(negative, ds);
      !StartsWith(body, "0x") && !StartsWith(body, "0X")
  {
    var body := OctalText(negative, ds);
    assert |body| >= 2 ==> body[..2][0] == body[0] && body[..2][1] == body[1];
    assert !negative && |body| >= 2 ==> body[1] == ds[0];
  }

  // So "010" is read as ten, where C has eight.
  lemma TenForEight()
    ensures ParseCInteger("010") == Some(10) && Octal("10") == 8
  {
    LeadingZeroIsDecimal("", false, "10", "", "");
    assert "" + (OctalText(false, "10") + "") + "" == "010";
    assert "10"[..1] == "1" && "1"[..0] == "";
    assert Magnitude("1", 10) == Some(1) && Magnitude("10", 10) == Some(10);
    assert Octal("1") == 1 && Octal("10") == 8;
  }
}
