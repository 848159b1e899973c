/**
 * The CSV cell parsers of the product bulk upload (`toBoolean`, `toNumber`,
 * `toList` in controllers/productController.js) and the upload's tracking
 * of SKUs already seen earlier in the same file.
 */
module Csv {
  import opened Common
  import Helper

  /** A cell as the parsers receive it: a JavaScript value. */
  datatype Value = Undefined | Null | Bool(b: bool) | Str(s: string) | Arr(items: seq<string>)

  /** JavaScript truthiness of a cell. */
  predicate Truthy(v: Value)
  {
    match v
    case Undefined => false
    case Null => false
    case Bool(b) => b
    case Str(s) => s != []
    case Arr(_) => true
  }

  // ---------------------------------------------------------------------
  // toBoolean
  // ---------------------------------------------------------------------

  const TrueWords: set<string> := {"true", "1", "yes"}

  /** A boolean passes through; any other non-string is false. */
  function ToBoolean(v: Value): (b: bool)
    ensures b <==> v == Bool(true) || (v.Str? && Lower(Trim(v.s)) in TrueWords)
  {
    match v
    case Bool(b) => b
    case Str(s) => Lower(Trim(s)) in TrueWords
    case _ => false
  }

  /** Surrounding blanks and letter case never matter. */
  lemma ToBooleanIgnoresPaddingAndCase(pre: string, w: string, post: string)
    requires AllSpace(pre) && AllSpace(post) && w != [] && Trimmed(w)
    ensures ToBoolean(Str(pre + w + post)) <==> Lower(w) in TrueWords
  {
    TrimPadded(pre, w, post);
  }

  // ---------------------------------------------------------------------
  // toNumber
  // ---------------------------------------------------------------------

  /** The characters `/[\s,$€£₹]/g` removes. */
  predicate Stripped(c: char)
  {
    IsSpace(c) || c == ',' || c == '$' || c == '€' || c == '£' || c == '₹'
  }

  /** Remove every stripped character. */
  function Strip(s: string): (r: string)
    ensures |r| <= |s|
    ensures forall i :: 0 <= i < |r| ==> !Stripped(r[i])
  {
    if s == [] then []
    else (if Stripped(s[0]) then [] else [s[0]]) + Strip(s[1..])
  }

  /** Stripping twice strips nothing more. */
  lemma {:induction false} StripIdempotent(s: string)
    ensures Strip(Strip(s)) == Strip(s)
  {
    if s != [] {
      StripIdempotent(s[1..]);
      var t := Strip(s);
      if !Stripped(s[0]) {
        assert t == [s[0]] + Strip(s[1..]);
        assert t[0] == s[0] && t[1..] == Strip(s[1..]);
      } else {
        assert t == Strip(s[1..]);
      }
    }
  }

  /** `replace(/%$/g, "")`: one trailing percent sign is dropped. */
  function DropPercent(s: string): (r: string)
    ensures s != [] && s[|s| - 1] == '%' ==> r == s[..|s| - 1]
    ensures (s == [] || s[|s| - 1] != '%') ==> r == s
  {
    if s != [] && s[|s| - 1] == '%' then s[..|s| - 1] else s
  }

  predicate IsDigit(c: char) { '0' <= c <= '9' }

  predicate AllDigits(s: string) { forall i :: 0 <= i < |s| ==> IsDigit(s[i]) }

  /** The value of a string of decimal digits. */
  function DigitsValue(s: string): (n: nat)
    requires AllDigits(s)
  {
    if s == [] then 0 else 10 * DigitsValue(s[..|s| - 1]) + (s[|s| - 1] - '0') as nat
  }

  function Pow10(k: nat): (p: nat)
    ensures p >= 1
  {
    if k == 0 then 1 else 10 * Pow10(k - 1)
  }

  /** The position of the first '.', or |s| when there is none. */
  function DotAt(s: string): (k: nat)
    ensures k <= |s|
    ensures forall i :: 0 <= i < k ==> s[i] != '.'
    ensures k < |s| ==> s[k] == '.'
  {
    if s == [] then 0 else if s[0] == '.' then 0 else 1 + DotAt(s[1..])
  }

  /**
   * `Number(raw)` on what is left after stripping (no white space), as the
   * StringNumericLiteral grammar of ECMAScript reads it: the empty string
   * is 0; `0x`, `0o` or `0b` (either case) and at least one digit of that
   * base is an integer, with no sign allowed; otherwise an optional sign,
   * then digits with at most one decimal point and at least one digit,
   * then an optional exponent (`e` or `E`, an optional sign, at least one
   * digit). Anything else, "Infinity" included, is NaN or not finite, and
   * `toNumber` answers undefined for both: None.
   */
  function Number(s: string): (r: Option<real>)
    ensures s == [] ==> r == Some(0.0)
    ensures RadixPrefixed(s) ==> (r.Some? <==> InBase(s[2..], RadixOf(s[1])) && |s| > 2)
    ensures s != [] && (s[0] == '-' || s[0] == '+') && RadixPrefixed(s[1..]) ==> r.None?
  {
    if s == [] then Some(0.0)
    else if RadixPrefixed(s) then Radix(s[2..], RadixOf(s[1]))
    else if s[0] == '-' then
      SignedRadixIsNaN(s[1..]);
      Negate(Decimal(s[1..]))
    else if s[0] == '+' then
      SignedRadixIsNaN(s[1..]);
      Decimal(s[1..])
    else Decimal(s)
  }

  function Negate(r: Option<real>): Option<real>
  {
    match r
    case None => None
    case Some(x) => Some(-x)
  }

  /** The base the letter after a leading `0` names: 16, 8 or 2, and 0 for any other character. */
  function RadixOf(c: char): (b: nat)
    ensures b == 0 || b == 2 || b == 8 || b == 16
    ensures b > 0 ==> !IsDigit(c) && c != '.' && c != 'e' && c != 'E'
  {
    if c == 'x' || c == 'X' then 16
    else if c == 'o' || c == 'O' then 8
    else if c == 'b' || c == 'B' then 2
    else 0
  }

  /** `0x`, `0o` or `0b`, in either case, at the front. */
  predicate RadixPrefixed(s: string)
  {
    |s| >= 2 && s[0] == '0' && RadixOf(s[1]) > 0
  }

  /** Every character is a digit of base `b`. */
  predicate InBase(s: string, b: nat)
  {
    forall i :: 0 <= i < |s| ==> Helper.IsHexDigit(s[i]) && Helper.HexValue(s[i]) < b
  }

  /** The value of digits of base `b`, most significant first. */
  function BaseValue(s: string, b: nat): nat
    requires InBase(s, b)
  {
    if s == [] then 0 else BaseValue(s[..|s| - 1], b) * b + Helper.HexValue(s[|s| - 1])
  }

  /** The digits after a radix prefix: at least one, all of the base. */
  function Radix(s: string, b: nat): (r: Option<real>)
    ensures r.Some? <==> s != [] && InBase(s, b)
  {
    if s != [] && InBase(s, b) then Some(BaseValue(s, b) as real) else None
  }

  /** A signed radix literal is no decimal literal either: the prefix letter is neither a digit nor an exponent mark. */
  lemma SignedRadixIsNaN(s: string)
    ensures RadixPrefixed(s) ==> Decimal(s).None?
  {
    if RadixPrefixed(s) {
      var k := ExpAt(s);
      assert k >= 2;
      assert s[..k][1] == s[1];
      MantissaWithLetter(s[..k], 1);
    }
  }

  /** Digits and a dot only: text holding any other character is no mantissa. */
  lemma MantissaWithLetter(m: string, i: nat)
    requires i < |m| && !IsDigit(m[i]) && m[i] != '.'
    requires m[0] != '.'
    ensures Unsigned(m).None?
  {
    var k := DotAt(m);
    if i < k {
      assert m[..k][i] == m[i];
    } else if i > k {
      assert m[k + 1..][i - k - 1] == m[i];
    }
  }

  predicate IsExpMark(c: char) { c == 'e' || c == 'E' }

  /** The position of the first 'e' or 'E', or |s| when there is none. */
  function ExpAt(s: string): (k: nat)
    ensures k <= |s|
    ensures forall i :: 0 <= i < k ==> !IsExpMark(s[i])
    ensures k < |s| ==> IsExpMark(s[k])
  {
    if s == [] then 0 else if IsExpMark(s[0]) then 0 else 1 + ExpAt(s[1..])
  }

  /** An unsigned decimal literal: a mantissa, then an optional exponent. */
  function Decimal(s: string): Option<real>
  {
    var k := ExpAt(s);
    var m := Unsigned(s[..k]);
    if k == |s| then m
    else
      var e := Exponent(s[k + 1..]);
      if m.Some? && e.Some? then Some(Scale(m.value, e.value)) else None
  }

  /** Digits with at most one '.', and at least one digit. */
  function Unsigned(s: string): Option<real>
  {
    var k := DotAt(s);
    var whole := s[..k];
    var frac := if k < |s| then s[k + 1..] else [];
    if AllDigits(whole) && AllDigits(frac) && |whole| + |frac| > 0 then
      Some(DigitsValue(whole) as real + DigitsValue(frac) as real / Pow10(|frac|) as real)
    else None
  }

  /** The exponent after the mark: an optional sign and at least one digit. */
  function Exponent(s: string): (r: Option<int>)
    ensures r.Some? ==> s != []
  {
    if s != [] && (s[0] == '-' || s[0] == '+') then
      var d := s[1..];
      if d != [] && AllDigits(d) then Some(if s[0] == '-' then -(DigitsValue(d) as int) else DigitsValue(d)) else None
    else if s != [] && AllDigits(s) then Some(DigitsValue(s))
    else None
  }

  /** `x` times ten to the power `e`. */
  function Scale(x: real, e: int): real
  {
    if e >= 0 then x * Pow10(e) as real else x / Pow10(-e) as real
  }

  /** A plain run of digits reads as its decimal value. */
  lemma NumberOfDigits(s: string)
    requires AllDigits(s) && s != []
    ensures Number(s) == Some(DigitsValue(s) as real)
  {
    assert IsDigit(s[0]);
    assert |s| >= 2 ==> IsDigit(s[1]);
    DecimalOfDigits(s);
  }

  lemma DecimalOfDigits(s: string)
    requires AllDigits(s) && s != []
    ensures Decimal(s) == Some(DigitsValue(s) as real)
  {
    assert forall i :: 0 <= i < |s| ==> !IsExpMark(s[i]);
    assert ExpAt(s) == |s|;
    assert s[..|s|] == s;
    UnsignedOfDigits(s);
  }

  lemma UnsignedOfDigits(s: string)
    requires AllDigits(s) && s != []
    ensures Unsigned(s) == Some(DigitsValue(s) as real)
  {
    DotlessDigits(s);
    var e: string := [];
    assert DigitsValue(e) == 0 && Pow10(|e|) == 1;
    assert DigitsValue(e) as real / Pow10(|e|) as real == 0.0;
    assert s[..|s|] == s;
  }

  lemma DotlessDigits(s: string)
    requires AllDigits(s)
    ensures DotAt(s) == |s|
  {
    assert forall i :: 0 <= i < |s| ==> s[i] != '.';
  }

  /**
   * Digits, an exponent mark and a (signed) digit run read as the digits
   * times that power of ten: "1e3" is 1000, "25E-1" is 2.5.
   */
  lemma NumberReadsExponent(m: string, mark: char, sign: string, e: string)
    requires AllDigits(m) && m != [] && IsExpMark(mark)
    requires sign == "" || sign == "+" || sign == "-"
    requires AllDigits(e) && e != []
    ensures Number(m + [mark] + sign + e)
      == Some(Scale(DigitsValue(m) as real, if sign == "-" then -(DigitsValue(e) as int) else DigitsValue(e)))
  {
    var s := m + [mark] + sign + e;
    assert s == m + [mark] + (sign + e);
    assert forall i :: 0 <= i < |m| ==> IsDigit(m[i]);
    DecimalAtMark(m, mark, sign + e);
    ExponentOfSigned(sign, e);
    UnsignedOfDigits(m);
    assert s[0] == m[0] && IsDigit(s[0]);
    assert !RadixPrefixed(s) by {
      assert s[1] == (if |m| >= 2 then m[1] else mark);
    }
  }

  /** What comes before the first exponent mark is the mantissa, the rest is the exponent. */
  lemma DecimalAtMark(m: string, mark: char, rest: string)
    requires forall i :: 0 <= i < |m| ==> !IsExpMark(m[i])
    requires IsExpMark(mark)
    ensures Decimal(m + [mark] + rest)
      == (var u, x := Unsigned(m), Exponent(rest); if u.Some? && x.Some? then Some(Scale(u.value, x.value)) else None)
  {
    var s := m + [mark] + rest;
    assert forall i :: 0 <= i < |m| ==> s[i] == m[i];
    assert s[|m|] == mark;
    assert ExpAt(s) == |m|;
    assert s[..|m|] == m;
    assert s[|m| + 1..] == rest;
  }

  lemma ExponentOfSigned(sign: string, e: string)
    requires sign == "" || sign == "+" || sign == "-"
    requires AllDigits(e) && e != []
    ensures Exponent(sign + e) == Some(if sign == "-" then -(DigitsValue(e) as int) else DigitsValue(e))
  {
    if sign == "" {
      assert sign + e == e;
      assert IsDigit(e[0]);
    } else {
      assert (sign + e)[1..] == e;
    }
  }

  /**
   * `0x`, `0o` or `0b` and digits of that base read as an integer of that
   * base; the same literal with a sign in front is NaN.
   */
  lemma NumberReadsRadix(mark: char, d: string)
    requires RadixOf(mark) > 0 && d != [] && InBase(d, RadixOf(mark))
    ensures Number(['0', mark] + d) == Some(BaseValue(d, RadixOf(mark)) as real)
    ensures Number(['-', '0', mark] + d).None?
    ensures Number(['+', '0', mark] + d).None?
  {
    RadixLiteral(mark, d);
    SignedRadixLiteral('-', mark, d);
    SignedRadixLiteral('+', mark, d);
  }

  lemma RadixLiteral(mark: char, d: string)
    requires RadixOf(mark) > 0 && d != [] && InBase(d, RadixOf(mark))
    ensures Number(['0', mark] + d) == Some(BaseValue(d, RadixOf(mark)) as real)
  {
    assert (['0', mark] + d)[2..] == d;
  }

  lemma SignedRadixLiteral(sign: char, mark: char, d: string)
    requires sign == '-' || sign == '+'
    requires RadixOf(mark) > 0
    ensures Number([sign, '0', mark] + d).None?
  {
    var s := ['0', mark] + d;
    assert ([sign] + s)[1..] == s && [sign, '0', mark] + d == [sign] + s;
  }

  /** A cell with nothing to trim, strip or drop reads as `Number` of its text. */
  lemma PlainCell(s: string)
    requires s != [] && s[|s| - 1] != '%'
    requires forall i :: 0 <= i < |s| ==> !Stripped(s[i])
    ensures ToNumber(Str(s)) == Number(s)
  {
    assert !IsSpace(s[0]);
    ReadsStripped(s);
    StripKeepsPlain(s);
  }

  lemma {:induction false} StripKeepsPlain(s: string)
    requires forall i :: 0 <= i < |s| ==> !Stripped(s[i])
    ensures Strip(s) == s
  {
    if s != [] {
      assert !Stripped(s[0]);
      StripKeepsPlain(s[1..]);
      assert [s[0]] + s[1..] == s;
    }
  }

  /**
   * A cell of digits, an exponent mark and a (signed) digit run reads as
   * the digits times that power of ten.
   */
  lemma ExponentCell(m: string, mark: char, sign: string, e: string)
    requires AllDigits(m) && m != [] && IsExpMark(mark)
    requires sign == "" || sign == "+" || sign == "-"
    requires AllDigits(e) && e != []
    ensures ToNumber(Str(m + [mark] + sign + e))
      == Some(Scale(DigitsValue(m) as real, if sign == "-" then -(DigitsValue(e) as int) else DigitsValue(e)))
  {
    var s := m + [mark] + sign + e;
    forall i | 0 <= i < |s|
      ensures !Stripped(s[i])
    {
      if i < |m| {
        assert s[i] == m[i] && IsDigit(m[i]);
      } else if i == |m| {
        assert s[i] == mark;
      } else if i < |m| + 1 + |sign| {
        assert s[i] == sign[i - |m| - 1];
      } else {
        assert s[i] == e[i - |m| - 1 - |sign|] && IsDigit(e[i - |m| - 1 - |sign|]);
      }
    }
    assert s[|s| - 1] == e[|e| - 1] && IsDigit(e[|e| - 1]);
    PlainCell(s);
    NumberReadsExponent(m, mark, sign, e);
  }

  /** A cell holding a radix literal reads as its value in that base. */
  lemma RadixCell(mark: char, d: string)
    requires RadixOf(mark) > 0 && d != [] && InBase(d, RadixOf(mark))
    ensures ToNumber(Str(['0', mark] + d)) == Some(BaseValue(d, RadixOf(mark)) as real)
  {
    var s := ['0', mark] + d;
    assert forall i :: 2 <= i < |s| ==> s[i] == d[i - 2];
    RadixPlain(s, 2);
    PlainCell(s);
    RadixLiteral(mark, d);
  }

  /** With a sign in front, the same cell reads as undefined. */
  lemma SignedRadixCell(sign: char, mark: char, d: string)
    requires sign == '-' || sign == '+'
    requires RadixOf(mark) > 0 && d != [] && InBase(d, RadixOf(mark))
    ensures ToNumber(Str([sign, '0', mark] + d)).None?
  {
    var t := [sign, '0', mark] + d;
    assert forall i :: 3 <= i < |t| ==> t[i] == d[i - 3];
    RadixPlain(t, 3);
    PlainCell(t);
    SignedRadixLiteral(sign, mark, d);
  }

  /** Text whose first `k` characters are no stripped character and whose rest is hex digits has nothing to strip. */
  lemma RadixPlain(s: string, k: nat)
    requires k < |s|
    requires forall i :: 0 <= i < k ==> !Stripped(s[i])
    requires forall i :: k <= i < |s| ==> Helper.IsHexDigit(s[i])
    ensures forall i :: 0 <= i < |s| ==> !Stripped(s[i])
    ensures s[|s| - 1] != '%'
  {
  }

  /** Literals a spreadsheet may hold: exponents, "1.5E+03" included, and radix integers. */
  lemma NumberExamples()
    ensures Number("1e3") == Some(1000.0)
    ensures Number("2e-1") == Some(0.2)
    ensures Number("1.5E+03") == Some(1500.0)
    ensures Number("0x1A") == Some(26.0)
    ensures Number("0o17") == Some(15.0)
    ensures Number("0b11") == Some(3.0)
    ensures Number("-0x1A").None?
  {
    ThousandReads();
    FifthReads();
    MantissaExample();
    HexReads();
    OctalReads();
    BinaryReads();
    assert "-0x1A" == ['-', '0', 'x'] + "1A";
    NumberReadsRadix('x', "1A");
  }

  lemma ThousandReads()
    ensures Number("1e3") == Some(1000.0)
  {
    assert "1e3" == "1" + ['e'] + "" + "3";
    NumberReadsExponent("1", 'e', "", "3");
    assert DigitsValue("1") == 1 && DigitsValue("3") == 3;
    assert Pow10(3) == 1000;
  }

  lemma FifthReads()
    ensures Number("2e-1") == Some(0.2)
  {
    assert "2e-1" == "2" + ['e'] + "-" + "1";
    NumberReadsExponent("2", 'e', "-", "1");
    assert DigitsValue("2") == 2 && DigitsValue("1") == 1;
  }

  lemma MantissaExample()
    ensures Number("1.5E+03") == Some(1500.0)
  {
    var s := "1.5E+03";
    assert s == "1.5" + ['E'] + "+03";
    DecimalAtMark("1.5", 'E', "+03");
    OneAndAHalf();
    PlusThree();
    assert Scale(1.5, 3) == 1500.0 by { assert Pow10(3) == 1000; }
    assert Decimal(s) == Some(1500.0);
    assert s[0] == '1' && s[1] == '.';
  }

  lemma PlusThree()
    ensures Exponent("+03") == Some(3)
  {
    assert "+03" == "+" + "03";
    ExponentOfSigned("+", "03");
    assert DigitsValue("03") == 3 by { assert DigitsValue("0") == 0; }
  }

  lemma OneAndAHalf()
    ensures Unsigned("1.5") == Some(1.5)
  {
    assert DotAt("1.5") == 1;
    assert "1.5"[..1] == "1" && "1.5"[2..] == "5";
    assert DigitsValue("1") == 1 && DigitsValue("5") == 5;
  }

  lemma HexReads()
    ensures Number("0x1A") == Some(26.0)
  {
    assert "0x1A" == ['0', 'x'] + "1A";
    RadixLiteral('x', "1A");
    assert BaseValue("1", 16) == 1;
  }

  lemma OctalReads()
    ensures Number("0o17") == Some(15.0)
  {
    assert "0o17" == ['0', 'o'] + "17";
    RadixLiteral('o', "17");
    assert BaseValue("1", 8) == 1;
  }

  lemma BinaryReads()
    ensures Number("0b11") == Some(3.0)
  {
    assert "0b11" == ['0', 'b'] + "11";
    RadixLiteral('b', "11");
    assert BaseValue("1", 2) == 1;
  }

  /**
   * `toNumber`: undefined for undefined, null and blank cells; otherwise the
   * cell with the stripped characters and one trailing '%' removed, read as
   * a number, and undefined when that is not a (finite) number. A cell that
   * is not a string is read through `String(val)`, untrimmed: an array is
   * its items joined by commas.
   */
  function ToNumber(v: Value): (r: Option<real>)
    ensures v.Undefined? || v.Null? ==> r.None?
    ensures v.Str? && AllSpace(v.s) ==> r.None?
    ensures v.Str? && !AllSpace(v.s) ==> r == Number(DropPercent(Strip(Trim(v.s))))
    ensures v.Arr? && Join(v.items) == [] ==> r.None?
    ensures v.Arr? && Join(v.items) != [] ==> r == Number(DropPercent(Strip(Join(v.items))))
  {
    match v
    case Undefined => None
    case Null => None
    case Str(s) =>
      if Trim(s) == [] then
        TrimOfBlank(s);
        None
      else
        BlankTrimsEmpty(s);
        Number(DropPercent(Strip(Trim(s))))
    case Bool(b) => Number(if b then "true" else "false")
    case Arr(items) =>
      var raw := Join(items);
      if raw == [] then None else Number(DropPercent(Strip(raw)))
  }

  /**
   * An array cell reads like the string cell of its items joined by commas,
   * unless that text is blank: the string is trimmed and then undefined,
   * the array's text is not trimmed and reads as 0.
   */
  lemma ArrayReadsAsJoinedText(items: seq<string>)
    ensures !AllSpace(Join(items)) ==> ToNumber(Arr(items)) == ToNumber(Str(Join(items)))
    ensures Join(items) != [] && AllSpace(Join(items)) ==>
      ToNumber(Arr(items)) == Some(0.0) && ToNumber(Str(Join(items))).None?
  {
    var s := Join(items);
    if !AllSpace(s) {
      ReadsStripped(s);
    } else if s != [] {
      StripOfBlank(s);
    }
  }

  /** The empty array is undefined, and ["1", "2"] reads as 12: the comma joining them is stripped. */
  lemma ArrayCellExamples()
    ensures ToNumber(Arr([])).None?
    ensures ToNumber(Arr(["1", "2"])) == Some(12.0)
  {
    var raw := Join(["1", "2"]);
    assert raw == "1,2";
    StripOneTwo();
    TwelveReads();
  }

  lemma StripOneTwo()
    ensures Strip("1,2") == "12"
  {
    assert Strip("2") == "2";
    assert Strip(",2") == "2";
  }

  lemma TwelveReads()
    ensures Number(DropPercent("12")) == Some(12.0)
  {
    assert AllDigits("12");
    NumberOfDigits("12");
    assert DigitsValue("12") == 12 by {
      assert DigitsValue("1") == 1;
    }
  }

  /** A trimmed-empty cell is all blanks. */
  lemma BlankTrimsEmpty(s: string)
    ensures Trim(s) == [] ==> AllSpace(s)
  {
    if Trim(s) == [] {
      forall i | 0 <= i < |s|
        ensures IsSpace(s[i])
      {
        if i >= LeadingSpaces(s) {
          assert LeadingSpaces(s) + |Trim(s)| <= i;
        }
      }
    }
  }

  lemma {:induction false} StripAppend(a: string, b: string)
    ensures Strip(a + b) == Strip(a) + Strip(b)
    decreases |a|
  {
    if a == [] {
      assert a + b == b;
    } else {
      assert (a + b)[0] == a[0] && (a + b)[1..] == a[1..] + b;
      StripAppend(a[1..], b);
    }
  }

  lemma {:induction false} StripOfBlank(s: string)
    requires AllSpace(s)
    ensures Strip(s) == []
  {
    if s != [] {
      StripOfBlank(s[1..]);
    }
  }

  /** Trimming first changes nothing: the blanks it removes are stripped anyway. */
  lemma StripOfTrim(s: string)
    ensures Strip(Trim(s)) == Strip(s)
  {
    var n := LeadingSpaces(s);
    var t := Trim(s);
    assert s == s[..n] + t + s[n + |t|..];
    StripAppend(s[..n] + t, s[n + |t|..]);
    StripAppend(s[..n], t);
    StripOfBlank(s[..n]);
    StripOfBlank(s[n + |t|..]);
  }

  /**
   * The stripped characters never matter: a cell reads as the cell with
   * them removed, as long as something is left.
   */
  lemma ToNumberIgnoresStripped(s: string)
    requires Strip(s) != []
    ensures ToNumber(Str(s)) == ToNumber(Str(Strip(s)))
  {
    var t := Strip(s);
    StrippedNotBlank(s);
    ReadsStripped(s);
    assert !IsSpace(t[0]);
    ReadsStripped(t);
    StripIdempotent(s);
  }

  /** Something left after stripping means the cell was not blank. */
  lemma StrippedNotBlank(s: string)
    requires Strip(s) != []
    ensures !AllSpace(s)
  {
    if AllSpace(s) {
      StripOfBlank(s);
    }
  }

  /** A cell that is not blank reads as its stripped text. */
  lemma ReadsStripped(s: string)
    requires !AllSpace(s)
    ensures ToNumber(Str(s)) == Number(DropPercent(Strip(s)))
  {
    StripOfTrim(s);
  }

  /** A cell of currency signs and separators only reads as 0, not as undefined. */
  lemma CurrencyOnlyIsZero(s: string)
    requires !AllSpace(s) && Strip(s) == []
    ensures ToNumber(Str(s)) == Some(0.0)
  {
    StripOfTrim(s);
  }

  /** The decimal digits of a natural number. */
  function ShowNat(n: nat): (s: string)
    ensures s != [] && AllDigits(s)
  {
    if n < 10 then [('0' as int + n) as char]
    else ShowNat(n / 10) + [('0' as int + n % 10) as char]
  }

  /** Reading back the digits of a natural number gives the number. */
  lemma {:induction false} ShowNatRoundTrip(n: nat)
    ensures DigitsValue(ShowNat(n)) == n
  {
    if n >= 10 {
      ShowNatRoundTrip(n / 10);
      var s := ShowNat(n);
      assert s[..|s| - 1] == ShowNat(n / 10);
    }
  }

  /** Any count written plainly in a cell reads back as itself. */
  lemma {:induction false} ToNumberReadsCounts(n: nat)
    ensures ToNumber(Str(ShowNat(n))) == Some(n as real)
  {
    var s := ShowNat(n);
    ShowNatRoundTrip(n);
    assert !IsSpace(s[0]) && !IsSpace(s[|s| - 1]) by {
      assert IsDigit(s[0]) && IsDigit(s[|s| - 1]);
    }
    TrimmedIsFixpoint(s);
    StripKeepsDigits(s);
    assert s[|s| - 1] != '%' by { assert IsDigit(s[|s| - 1]); }
    NumberOfDigits(s);
    assert !IsSpace(s[0]) && !AllSpace(s);
  }

  /** A trailing '%' is dropped: "15%" reads as 15. */
  lemma {:induction false} ToNumberDropsPercent(n: nat)
    ensures ToNumber(Str(ShowNat(n) + "%")) == Some(n as real)
  {
    var d := ShowNat(n);
    var s := d + "%";
    ShowNatRoundTrip(n);
    assert IsDigit(d[0]) && s[0] == d[0] && s[|s| - 1] == '%';
    TrimmedIsFixpoint(s);
    StripKeepsDigits(d);
    StripAppend(d, "%");
    assert Strip("%") == "%";
    assert DropPercent(s) == d;
    NumberOfDigits(d);
    assert !AllSpace(s);
  }

  lemma {:induction false} StripKeepsDigits(s: string)
    requires AllDigits(s)
    ensures Strip(s) == s
  {
    if s != [] {
      assert !Stripped(s[0]) by { assert IsDigit(s[0]); }
      StripKeepsDigits(s[1..]);
      assert [s[0]] + s[1..] == s;
    }
  }

  // ---------------------------------------------------------------------
  // toList
  // ---------------------------------------------------------------------

  predicate IsSeparator(c: char) { c == '|' || c == ';' || c == ',' }

  predicate SeparatorFree(s: string) { forall j :: 0 <= j < |s| ==> !IsSeparator(s[j]) }

  predicate AllSeparatorFree(ps: seq<string>) { forall i :: 0 <= i < |ps| ==> SeparatorFree(ps[i]) }

  /** Non-empty and trimmed: what `toList` keeps. */
  predicate CleanItems(ps: seq<string>) { forall i :: 0 <= i < |ps| ==> ps[i] != [] && Trimmed(ps[i]) }

  lemma TrimKeepsSeparatorFree(s: string)
    requires SeparatorFree(s)
    ensures SeparatorFree(Trim(s))
  {
    var t := Trim(s);
    assert forall j :: 0 <= j < |t| ==> t[j] == s[LeadingSpaces(s) + j];
  }

  /** Split at every separator; n separators give n + 1 pieces. */
  function Split(s: string): (ps: seq<string>)
    ensures |ps| >= 1
    ensures AllSeparatorFree(ps)
    decreases |s|
  {
    if s == [] then [[]]
    else
      var rest := Split(s[1..]);
      if IsSeparator(s[0]) then [[]] + rest
      else [[s[0]] + rest[0]] + rest[1..]
  }

  /** Trim every piece and keep the non-empty ones. */
  function Clean(ps: seq<string>): (r: seq<string>)
    ensures CleanItems(r)
    ensures |r| <= |ps|
  {
    if ps == [] then []
    else
      var t := Trim(ps[0]);
      TrimmedIsFixpoint(ps[0]);
      (if t == [] then [] else [t]) + Clean(ps[1..])
  }

  /** Trimming cannot bring in a separator. */
  lemma {:induction false} CleanSeparatorFree(ps: seq<string>)
    requires AllSeparatorFree(ps)
    ensures AllSeparatorFree(Clean(ps))
  {
    if ps != [] {
      assert AllSeparatorFree(ps[1..]) by {
        forall i | 0 <= i < |ps[1..]|
          ensures SeparatorFree(ps[1..][i])
        {
          assert ps[1..][i] == ps[i + 1];
        }
      }
      CleanSeparatorFree(ps[1..]);
      TrimKeepsSeparatorFree(ps[0]);
    }
  }

  /**
   * `toList`: [] for a falsy cell, an array as it is, otherwise the pieces
   * between ',' ';' '|' trimmed and without empty ones. (Splitting on
   * `\s*[|;,]\s*` and trimming each piece is the same as splitting on the
   * bare separator and trimming.)
   */
  function ToList(v: Value): (r: seq<string>)
    ensures !Truthy(v) ==> r == []
    ensures v.Arr? ==> r == v.items
    ensures v.Str? ==> CleanItems(r) && AllSeparatorFree(r)
  {
    if !Truthy(v) then []
    else match v
      case Arr(items) => items
      case Str(s) =>
        CleanSeparatorFree(Split(s));
        Clean(Split(s))
      case Bool(_) => ["true"]
      case _ => []
  }

  /** Join with ','. */
  function Join(items: seq<string>): (s: string)
  {
    if items == [] then []
    else if |items| == 1 then items[0]
    else items[0] + [','] + Join(items[1..])
  }

  /** Items that `toList` itself produces: non-empty, trimmed, separator-free. */
  predicate ListItems(items: seq<string>)
  {
    CleanItems(items) && AllSeparatorFree(items)
  }

  lemma {:induction false} SplitPlain(a: string, rest: string)
    requires SeparatorFree(a)
    ensures Split(a + rest) == [a + Split(rest)[0]] + Split(rest)[1..]
    decreases |a|
  {
    if a == [] {
      var S := Split(rest);
      assert a + rest == rest && a + S[0] == S[0];
      assert [S[0]] + S[1..] == S;
    } else {
      var S := Split(rest);
      assert (a + rest)[1..] == a[1..] + rest;
      assert (a + rest)[0] == a[0] && !IsSeparator(a[0]);
      SplitPlain(a[1..], rest);
      var R := Split(a[1..] + rest);
      assert R[0] == a[1..] + S[0] && R[1..] == S[1..];
      assert [a[0]] + (a[1..] + S[0]) == a + S[0];
    }
  }

  lemma {:induction false} SplitJoin(items: seq<string>)
    requires items != [] && ListItems(items)
    ensures Split(Join(items)) == items
  {
    if |items| == 1 {
      SplitPlain(items[0], []);
      assert items[0] + [] == items[0] && items[0] + Split([])[0] == items[0];
      assert Join(items) == items[0];
    } else {
      var tail := items[1..];
      assert ListItems(tail) by {
        forall i | 0 <= i < |tail|
          ensures tail[i] != [] && Trimmed(tail[i]) && SeparatorFree(tail[i])
        {
          assert tail[i] == items[i + 1];
        }
      }
      SplitJoin(tail);
      var j := Join(tail);
      assert Join(items) == items[0] + ([','] + j);
      SplitPlain(items[0], [','] + j);
      assert ([','] + j)[1..] == j && ([','] + j)[0] == ',';
      var sp := Split([','] + j);
      assert sp == [[]] + Split(j);
      assert sp[0] == [] && sp[1..] == tail;
      assert items[0] + sp[0] == items[0];
      assert [items[0]] + tail == items;
    }
  }

  lemma {:induction false} CleanKeeps(items: seq<string>)
    requires ListItems(items)
    ensures Clean(items) == items
  {
    if items != [] {
      TrimmedIsFixpoint(items[0]);
      var tail := items[1..];
      assert ListItems(tail) by {
        forall i | 0 <= i < |tail|
          ensures tail[i] != [] && Trimmed(tail[i]) && SeparatorFree(tail[i])
        {
          assert tail[i] == items[i + 1];
        }
      }
      CleanKeeps(tail);
      assert [items[0]] + tail == items;
    }
  }

  /** Writing a list back joined with ',' and reading it gives the same list. */
  lemma ToListJoinRoundTrip(items: seq<string>)
    requires ListItems(items)
    ensures ToList(Str(Join(items))) == items
  {
    if items != [] {
      SplitJoin(items);
      CleanKeeps(items);
      assert Join(items) != [] by {
        if |items| == 1 { assert Join(items) == items[0]; }
      }
    }
  }

  // ---------------------------------------------------------------------
  // Duplicate SKUs within one upload
  // ---------------------------------------------------------------------

  /** What the SKU check says about one row (numbered from 2: row 1 is the header). */
  datatype SkuVerdict = MissingSku | DuplicateOf(firstRow: int) | FirstSeen

  /** The row's SKU after trimming; an absent or blank SKU is none. */
  function SkuKey(cell: Option<string>): (k: Option<string>)
    ensures k.Some? ==> k.value != [] && Trimmed(k.value)
  {
    match cell
    case None => None
    case Some(s) =>
      TrimmedIsFixpoint(s);
      if Trim(s) == [] then None else Some(Trim(s))
  }

  /** The first index holding SKU `k`, if any. */
  function FirstIn(keys: seq<Option<string>>, k: string): (r: Option<nat>)
    ensures r.Some? ==> (r.value < |keys| && keys[r.value] == Some(k)
      && forall l :: 0 <= l < r.value ==> keys[l] != Some(k))
    ensures r.None? ==> forall l :: 0 <= l < |keys| ==> keys[l] != Some(k)
  {
    if keys == [] then None
    else
      var prev := FirstIn(keys[..|keys| - 1], k);
      if prev.Some? then prev
      else if keys[|keys| - 1] == Some(k) then Some(|keys| - 1)
      else None
  }

  /** The verdict on row `i` from the SKUs of the rows before it. */
  function Verdict(keys: seq<Option<string>>, i: nat): SkuVerdict
    requires i < |keys|
  {
    match keys[i]
    case None => MissingSku
    case Some(k) =>
      match FirstIn(keys[..i], k)
      case None => FirstSeen
      case Some(j) => DuplicateOf(j + 2)
  }

  /** The SKU of every row. */
  function SkuKeys(cells: seq<Option<string>>): (keys: seq<Option<string>>)
    ensures |keys| == |cells|
    ensures forall i :: 0 <= i < |cells| ==> keys[i] == SkuKey(cells[i])
  {
    seq(|cells|, j requires 0 <= j < |cells| => SkuKey(cells[j]))
  }

  /** Looking one row further finds the same first row, or this one. */
  lemma FirstInStep(keys: seq<Option<string>>, i: nat, k: string)
    requires i < |keys|
    ensures FirstIn(keys[..i + 1], k)
      == if FirstIn(keys[..i], k).Some? then FirstIn(keys[..i], k)
         else if keys[i] == Some(k) then Some(i) else None
  {
    assert keys[..i + 1][..i] == keys[..i];
  }

  /** `seen` maps each SKU of the first `n` rows to the number of its first row. */
  ghost predicate SeenSoFar(seen: map<string, int>, keys: seq<Option<string>>, n: nat)
    requires n <= |keys|
  {
    (forall k :: k in seen <==> FirstIn(keys[..n], k).Some?)
    && (forall k :: k in seen ==> seen[k] == FirstIn(keys[..n], k).value + 2)
  }

  /** The check of one row's SKU against `seen`: the verdict, and `seen` after the row. */
  function CheckSku(seen: map<string, int>, key: Option<string>, row: int): (SkuVerdict, map<string, int>)
  {
    match key
    case None => (MissingSku, seen)
    case Some(sku) =>
      if sku in seen then (DuplicateOf(seen[sku]), seen) else (FirstSeen, seen[sku := row])
  }

  /** Checking row `i` against `seen` gives the row's verdict and keeps `seen` up to date. */
  lemma SeenStep(seen: map<string, int>, keys: seq<Option<string>>, i: nat)
    requires i < |keys| && SeenSoFar(seen, keys, i)
    ensures CheckSku(seen, keys[i], i + 2).0 == Verdict(keys, i)
    ensures SeenSoFar(CheckSku(seen, keys[i], i + 2).1, keys, i + 1)
  {
    forall k
      ensures FirstIn(keys[..i + 1], k)
        == if FirstIn(keys[..i], k).Some? then FirstIn(keys[..i], k)
           else if keys[i] == Some(k) then Some(i) else None
    {
      FirstInStep(keys, i, k);
    }
  }

  /**
   * The upload loop's `seenSkus` map: a row's SKU is recorded the first time
   * it is seen (before the row's other checks, so a row that fails later
   * still claims its SKU); a later row with that SKU fails, citing the
   * first row.
   */
  method ScanSkus(cells: seq<Option<string>>) returns (vs: seq<SkuVerdict>)
    ensures |vs| == |cells|
    ensures forall i :: 0 <= i < |cells| ==> vs[i] == Verdict(SkuKeys(cells), i)
  {
    var keys := SkuKeys(cells);
    var seen: map<string, int> := map[];
    vs := [];
    var i := 0;
    while i < |cells|
      invariant 0 <= i <= |cells|
      invariant |vs| == i
      invariant forall l :: 0 <= l < i ==> vs[l] == Verdict(keys, l)
      invariant SeenSoFar(seen, keys, i)
    {
      SeenStep(seen, keys, i);
      var (v, seen') := CheckSku(seen, keys[i], i + 2);
      vs := vs + [v];
      seen := seen';
      i := i + 1;
    }
  }

  /** Rows the check lets through carry pairwise different SKUs. */
  lemma FirstSeenDistinct(keys: seq<Option<string>>, i: nat, j: nat)
    requires i < j < |keys|
    requires Verdict(keys, i) == FirstSeen && Verdict(keys, j) == FirstSeen
    ensures keys[i] != keys[j]
  {
    assert keys[..j][i] == keys[i];
  }

  /** Every SKU present in the file is let through on exactly its first row. */
  lemma EachSkuFirstSeenOnce(keys: seq<Option<string>>, k: string)
    requires exists i :: 0 <= i < |keys| && keys[i] == Some(k)
    ensures FirstIn(keys, k).Some?
    ensures forall i :: (0 <= i < |keys| && keys[i] == Some(k)
      ==> (Verdict(keys, i) == FirstSeen <==> i == FirstIn(keys, k).value))
  {
    var f := FirstIn(keys, k).value;
    forall i | 0 <= i < |keys| && keys[i] == Some(k)
      ensures Verdict(keys, i) == FirstSeen <==> i == f
    {
      if i > f {
        assert keys[..i][f] == keys[f];
      } else if i == f {
        var p := keys[..i];
        assert forall l :: 0 <= l < |p| ==> p[l] == keys[l];
      }
    }
  }
}
