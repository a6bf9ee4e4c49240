/** Query-parameter parsing of src/helpers/basic.helpers.ts: `parseInt(param, 10)`
    as section 19.2.5 of ECMA-262 defines it, mapped to "undefined" when the result
    is NaN. An absent parameter is `undefined`, which `parseInt` first converts to
    the text "undefined". NaN is `None`; the numeric result is an unbounded `int`. */
module BasicHelpers {
  import opened Wrappers
  import opened JsText

  /** The longest prefix of `s` made of decimal digits. */
  function DigitPrefix(s: string): (r: string)
    ensures AllDigits(r) && |r| <= |s| && r == s[..|r|]
    ensures |r| < |s| ==> !IsDigit(s[|r|])
  {
    if s != [] && IsDigit(s[0]) then [s[0]] + DigitPrefix(s[1..]) else []
  }

  /** The text left after leading white space and at most one sign. */
  function Unsigned(t: string): string {
    if t != [] && (t[0] == '-' || t[0] == '+') then t[1..] else t
  }

  /** `parseInt(s, 10)`: skip leading white space, take one optional sign, then the
      decimal digits up to the first other character; NaN when there are none.
      Radix 10 means no "0x" prefix is recognised. */
  function ParseInt(s: string): (r: Option<int>)
    ensures r.Some? <==> DigitPrefix(Unsigned(TrimStart(s))) != []
  {
    ParseTrimmed(TrimStart(s))
  }

  /** The sign-and-digits part of `parseInt`, on text already free of leading
      white space. */
  function ParseTrimmed(t: string): (r: Option<int>)
    ensures r.Some? <==> DigitPrefix(Unsigned(t)) != []
  {
    var ds := DigitPrefix(Unsigned(t));
    var v: int := if ds == [] then 0 else DecimalValue(ds);
    if ds == [] then None
    else if t[0] == '-' then Some(-v)
    else Some(v)
  }

  predicate IsHexDigit(c: char) {
    IsDigit(c) || 'a' <= c <= 'f' || 'A' <= c <= 'F'
  }

  predicate AllHexDigits(s: string) {
    forall i :: 0 <= i < |s| ==> IsHexDigit(s[i])
  }

  /** The value of one hexadecimal digit, in either case. */
  function HexDigitValue(c: char): (d: nat)
    requires IsHexDigit(c)
    ensures d < 16
    ensures IsDigit(c) ==> d == DigitValue(c)
  {
    if IsDigit(c) then DigitValue(c)
    else if 'a' <= c <= 'f' then c as int - 'a' as int + 10
    else c as int - 'A' as int + 10
  }

  /** The longest prefix of `s` made of hexadecimal digits. */
  function HexPrefix(s: string): (r: string)
    ensures AllHexDigits(r) && |r| <= |s| && r == s[..|r|]
    ensures |r| < |s| ==> !IsHexDigit(s[|r|])
  {
    if s != [] && IsHexDigit(s[0]) then [s[0]] + HexPrefix(s[1..]) else []
  }

  /** The value of a run of hexadecimal digits, read left to right. */
  function HexValue(hs: string): nat
    requires AllHexDigits(hs)
  {
    if hs == [] then 0 else HexValue(hs[..|hs| - 1]) * 16 + HexDigitValue(hs[|hs| - 1])
  }

  /** The "0x" or "0X" that switches a radix-less `parseInt` to base 16. */
  predicate HasHexPrefix(u: string) {
    |u| >= 2 && u[0] == '0' && (u[1] == 'x' || u[1] == 'X')
  }

  /** `parseInt(s)` with no radix, as section 19.2.5 of ECMA-262 defines it: after
      the white space and the optional sign, a "0x" or "0X" prefix selects base 16
      and is dropped; any other text is read in base 10, exactly as `ParseInt`
      reads it. */
  function ParseIntNoRadix(s: string): (r: Option<int>)
    ensures !HasHexPrefix(Unsigned(TrimStart(s))) ==> r == ParseInt(s)
    ensures HasHexPrefix(Unsigned(TrimStart(s))) ==> (r.Some? <==> HexPrefix(Unsigned(TrimStart(s))[2..]) != [])
  {
    ParseTrimmedNoRadix(TrimStart(s))
  }

  /** The sign, prefix and digits part of a radix-less `parseInt`, on text
      already free of leading white space; NaN when no digit of the chosen base
      follows. */
  function ParseTrimmedNoRadix(t: string): (r: Option<int>)
    ensures !HasHexPrefix(Unsigned(t)) ==> r == ParseTrimmed(t)
    ensures HasHexPrefix(Unsigned(t)) ==> (r.Some? <==> HexPrefix(Unsigned(t)[2..]) != [])
  {
    var u := Unsigned(t);
    if HasHexPrefix(u) then
      var hs := HexPrefix(u[2..]);
      if hs == [] then None
      else if t[0] == '-' then Some(-(HexValue(hs) as int))
      else Some(HexValue(hs) as int)
    else ParseTrimmed(t)
  }

  lemma {:induction false} HexPrefixOfDigits(hs: string, rest: string)
    requires AllHexDigits(hs)
    requires rest == [] || !IsHexDigit(rest[0])
    ensures HexPrefix(hs + rest) == hs
  {
    if hs != [] {
      assert (hs + rest)[1..] == hs[1..] + rest;
      HexPrefixOfDigits(hs[1..], rest);
    } else {
      assert hs + rest == rest;
    }
  }

  /** "0x" and hexadecimal digits followed by a non-digit are read as the digits'
      base-16 value. */
  lemma {:induction false} ParseIntNoRadixHex(x: char, hs: string, rest: string)
    requires x == 'x' || x == 'X'
    requires AllHexDigits(hs) && hs != []
    requires rest == [] || !IsHexDigit(rest[0])
    ensures ParseIntNoRadix(['0', x] + hs + rest) == Some(HexValue(hs) as int)
  {
    var u := ['0', x] + hs + rest;
    HexAfterPrefix(x, hs, rest);
    TrimStartOfSigned(u);
    assert Unsigned(u) == u;
  }

  /** A minus sign before the "0x" negates the base-16 value. */
  lemma {:induction false} ParseIntNoRadixNegativeHex(x: char, hs: string, rest: string)
    requires x == 'x' || x == 'X'
    requires AllHexDigits(hs) && hs != []
    requires rest == [] || !IsHexDigit(rest[0])
    ensures ParseIntNoRadix("-" + (['0', x] + hs + rest)) == Some(-(HexValue(hs) as int))
  {
    var u := ['0', x] + hs + rest;
    var s := "-" + u;
    HexAfterPrefix(x, hs, rest);
    TrimStartOfSigned(s);
    assert s[0] == '-' && s[1..] == u;
    assert Unsigned(s) == u;
  }

  /** After the "0x", the hexadecimal run is exactly the given digits. */
  lemma HexAfterPrefix(x: char, hs: string, rest: string)
    requires x == 'x' || x == 'X'
    requires AllHexDigits(hs)
    requires rest == [] || !IsHexDigit(rest[0])
    ensures HasHexPrefix(['0', x] + hs + rest)
    ensures HexPrefix((['0', x] + hs + rest)[2..]) == hs
  {
    HexPrefixOfDigits(hs, rest);
    assert (['0', x] + hs + rest)[2..] == hs + rest;
  }

  /** Without a radix, a printed integer still reads back as itself, unless what
      follows a lone "0" is an "x" or "X" that turns it into a base-16 prefix. */
  lemma {:induction false} ParseIntNoRadixOfDecimal(n: int, rest: string)
    requires rest == [] || (!IsDigit(rest[0]) && (n != 0 || (rest[0] != 'x' && rest[0] != 'X')))
    ensures ParseIntNoRadix(IntToDecimal(n) + rest) == Some(n)
  {
    ParseIntOfDecimal(n, rest);
    var m: nat := if n < 0 then -n else n;
    DecimalNotHex(m, rest);
    UnsignedOfDecimal(n, rest);
  }

  /** The printed digits of a number never open with "0x". */
  lemma DecimalNotHex(m: nat, rest: string)
    requires rest == [] || m != 0 || (rest[0] != 'x' && rest[0] != 'X')
    ensures !HasHexPrefix(NatToDecimal(m) + rest)
  {
    var u := NatToDecimal(m) + rest;
    if m < 10 {
      assert NatToDecimal(m) == [DigitChar(m)];
      if m != 0 {
        assert u[0] != '0';
      } else if rest != [] {
        assert u[1] == rest[0];
      }
    } else {
      assert u[0] == NatToDecimal(m)[0];
    }
  }

  /** Removing white space and the sign from a printed integer leaves its digits. */
  lemma UnsignedOfDecimal(n: int, rest: string)
    ensures var m: nat := if n < 0 then -n else n;
      Unsigned(TrimStart(IntToDecimal(n) + rest)) == NatToDecimal(m) + rest
  {
    var m: nat := if n < 0 then -n else n;
    var u := NatToDecimal(m) + rest;
    var s := IntToDecimal(n) + rest;
    if n < 0 {
      assert s == "-" + u;
      TrimStartOfSigned(s);
      assert s[1..] == u;
    } else {
      assert s == u;
      TrimStartOfSigned(s);
      assert u[0] == NatToDecimal(m)[0];
    }
  }

  /** `parseNumberOrUndefined` (basic.helpers.ts line 2): an absent parameter is
      parsed as the text "undefined". */
  function ParseNumberOrUndefined(param: Option<string>): (r: Option<int>)
    ensures param.None? ==> r.None?
    ensures param.Some? ==> r == ParseInt(param.value)
  {
    if param.None? then NoLeadingDigit("undefined"); ParseInt("undefined")
    else ParseInt(param.value)
  }

  datatype PageParams = PageParams(page: Option<int>, pageSize: Option<int>)

  /** `getPageAndPageSizeParams`: each field is parsed from its own query value
      alone. */
  function GetPageAndPageSizeParams(page: Option<string>, pageSize: Option<string>): (r: PageParams)
    ensures r.page == ParseNumberOrUndefined(page)
    ensures r.pageSize == ParseNumberOrUndefined(pageSize)
  {
    PageParams(ParseNumberOrUndefined(page), ParseNumberOrUndefined(pageSize))
  }

  lemma DigitPrefixOfDigits(ds: string, rest: string)
    requires AllDigits(ds)
    requires rest == [] || !IsDigit(rest[0])
    ensures DigitPrefix(ds + rest) == ds
  {
    if ds != [] {
      assert (ds + rest)[1..] == ds[1..] + rest;
      DigitPrefixOfDigits(ds[1..], rest);
    } else {
      assert ds + rest == rest;
    }
  }

  /** Digits followed by a non-digit are read as their value. */
  lemma ParseTrimmedDigits(ds: string, rest: string)
    requires AllDigits(ds) && ds != []
    requires rest == [] || !IsDigit(rest[0])
    ensures ParseTrimmed(ds + rest) == Some(DecimalValue(ds) as int)
  {
    DigitPrefixOfDigits(ds, rest);
    var t := ds + rest;
    assert t[0] == ds[0];
    assert Unsigned(t) == t;
  }

  /** A minus sign before the digits negates their value. */
  lemma ParseTrimmedNegative(ds: string, rest: string)
    requires AllDigits(ds) && ds != []
    requires rest == [] || !IsDigit(rest[0])
    ensures ParseTrimmed("-" + ds + rest) == Some(-(DecimalValue(ds) as int))
  {
    DigitPrefixOfDigits(ds, rest);
    NegativeOfPrefix(ds + rest, ds);
    assert "-" + ds + rest == "-" + (ds + rest);
  }

  lemma NegativeOfPrefix(u: string, ds: string)
    requires ds != [] && DigitPrefix(u) == ds
    ensures ParseTrimmed("-" + u) == Some(-(DecimalValue(ds) as int))
  {
    MinusSign(u);
  }

  lemma MinusSign(u: string)
    ensures Unsigned("-" + u) == u
    ensures ParseTrimmed("-" + u) == if DigitPrefix(u) == [] then None else Some(-(DecimalValue(DigitPrefix(u)) as int))
  {
    var t := "-" + u;
    assert t[0] == '-' && t[1..] == u;
  }

  /** Text that starts with a digit or a minus sign has no white space to skip. */
  lemma TrimStartOfSigned(s: string)
    requires s != [] && (IsDigit(s[0]) || s[0] == '-')
    ensures TrimStart(s) == s
  {
    assert !IsJsWhiteSpace(s[0]);
    TrimStartShortens(s);
  }

  /** Reading back what `String(n)` prints gives `n`, whatever non-digit text
      follows it: `parseInt("12abc")` is 12 and `parseInt("-3")` is -3. */
  lemma ParseIntOfDecimal(n: int, rest: string)
    requires rest == [] || !IsDigit(rest[0])
    ensures ParseInt(IntToDecimal(n) + rest) == Some(n)
  {
    var m: nat := if n < 0 then -n else n;
    var ds := NatToDecimal(m);
    DecimalRoundTrip(m);
    var s := IntToDecimal(n) + rest;
    if n < 0 {
      ParseTrimmedNegative(ds, rest);
      assert s == "-" + ds + rest;
    } else {
      ParseTrimmedDigits(ds, rest);
      assert s == ds + rest;
    }
    TrimStartOfSigned(s);
  }

  /** Leading white space does not change what `parseInt` reads. */
  lemma {:induction false} ParseIntSkipsWhiteSpace(ws: string, s: string)
    requires forall i :: 0 <= i < |ws| ==> IsJsWhiteSpace(ws[i])
    ensures ParseInt(ws + s) == ParseInt(s)
  {
    TrimStartSkips(ws, s);
  }

  /** An absent parameter yields undefined, and so does any text with no digits
      after the optional sign; a hexadecimal prefix is read as the digit 0. */
  lemma ParseIntExamples()
    ensures ParseInt("abc") == None && ParseInt("-") == None && ParseInt("") == None
    ensures ParseInt(" 12abc") == Some(12)
    ensures ParseInt("-3") == Some(-3)
    ensures ParseInt("0x1A") == Some(0)
  {
    NoDigitsExamples();
    TwelveExample();
    MinusThreeExample();
    HexExample();
  }

  lemma NoDigitsExamples()
    ensures ParseInt("undefined") == None
    ensures ParseInt("abc") == None && ParseInt("-") == None && ParseInt("") == None
  {
    NoLeadingDigit("undefined");
    NoLeadingDigit("abc");
    TrimStartShortens("-");
    assert Unsigned("-") == [];
  }

  /** Text opening with a letter has no digits for `parseInt`, with or without
      a radix. */
  lemma NoLeadingDigit(s: string)
    requires s != [] && 'a' <= s[0] <= 'z'
    ensures ParseInt(s) == None
    ensures ParseIntNoRadix(s) == None
  {
    TrimStartShortens(s);
    assert TrimStart(s) == s;
    assert Unsigned(s) == s;
    assert !IsDigit(s[0]);
    assert DigitPrefix(s) == [];
    assert ParseTrimmed(s) == None;
  }

  lemma TwelveExample()
    ensures ParseInt(" 12abc") == Some(12)
  {
    TwelveText();
    ParseIntOfDecimal(12, "abc");
    ParseIntSkipsWhiteSpace(" ", IntToDecimal(12) + "abc");
  }

  lemma TwelveText()
    ensures " " + (IntToDecimal(12) + "abc") == " 12abc"
  {
    assert IntToDecimal(12) == "12" by {
      assert NatToDecimal(1) == "1";
    }
  }

  lemma MinusThreeExample()
    ensures ParseInt("-3") == Some(-3)
  {
    assert NatToDecimal(3) == "3";
    ParseIntOfDecimal(-3, "");
    assert IntToDecimal(-3) + "" == "-3";
  }

  lemma HexExample()
    ensures ParseInt("0x1A") == Some(0)
  {
    assert NatToDecimal(0) == "0";
    ParseIntOfDecimal(0, "x1A");
    assert IntToDecimal(0) + "x1A" == "0x1A";
  }

  /** Without a radix, "0x1A" is 26, "0X10" is 16 and "-0x1A" is -26, while
      "0x" alone has no digits and is NaN. */
  lemma NoRadixExamples()
    ensures ParseIntNoRadix("0x1A") == Some(26)
    ensures ParseIntNoRadix("0X10") == Some(16)
    ensures ParseIntNoRadix("-0x1A") == Some(-26)
    ensures ParseIntNoRadix("0x") == None
  {
    LowerHexExample();
    UpperHexExample();
    NegativeHexExample();
    BareHexPrefixExample();
  }

  lemma LowerHexExample()
    ensures ParseIntNoRadix("0x1A") == Some(26)
  {
    HexOneA();
    var s := ['0', 'x'] + "1A" + "";
    assert s == "0x1A";
    ParseIntNoRadixHex('x', "1A", "");
    assert ParseIntNoRadix(s) == Some(26);
  }

  lemma UpperHexExample()
    ensures ParseIntNoRadix("0X10") == Some(16)
  {
    HexOneZero();
    var s := ['0', 'X'] + "10" + "";
    assert s == "0X10";
    ParseIntNoRadixHex('X', "10", "");
    assert ParseIntNoRadix(s) == Some(16);
  }

  lemma NegativeHexExample()
    ensures ParseIntNoRadix("-0x1A") == Some(-26)
  {
    HexOneA();
    var s := "-" + (['0', 'x'] + "1A" + "");
    assert s == "-0x1A";
    ParseIntNoRadixNegativeHex('x', "1A", "");
    assert ParseIntNoRadix(s) == Some(-26);
  }

  lemma BareHexPrefixExample()
    ensures ParseIntNoRadix("0x") == None
  {
    TrimStartOfSigned("0x");
    assert Unsigned("0x") == "0x";
    assert Unsigned("0x")[2..] == [];
  }

  lemma HexOneA()
    ensures AllHexDigits("1A") && HexValue("1A") == 26
  {
    assert "1A"[..1] == "1";
    assert "1"[..0] == "";
  }

  lemma HexOneZero()
    ensures AllHexDigits("10") && HexValue("10") == 16
  {
    assert "10"[..1] == "1";
    assert "1"[..0] == "";
  }

}
