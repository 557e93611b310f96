/** JavaScript's `parseInt(string, 10)`: leading white space is skipped, an
    optional sign is read, then the longest run of decimal digits; with no
    digit the result is NaN. Whatever follows the digits is ignored. */
module JsParseInt {
  import opened JsText

  /** The Number values parseInt can return in base 10: NaN or an integer.
      The integer is unbounded; -0 is represented as 0. */
  datatype JsNumber = NaN | Num(value: int)

  predicate IsDigit(c: char)
  {
    '0' <= c <= '9'
  }

  function DigitValue(c: char): nat
    requires IsDigit(c)
  {
    c as int - '0' as int
  }

  predicate AllDigits(s: string)
  {
    forall i :: 0 <= i < |s| ==> IsDigit(s[i])
  }

  predicate AllWhitespace(s: string)
  {
    forall i :: 0 <= i < |s| ==> IsJsWhitespace(s[i])
  }

  /** The integer that a run of decimal digits denotes. */
  function DigitsValue(s: string): nat
    requires AllDigits(s)
  {
    if s == [] then 0 else 10 * DigitsValue(s[..|s| - 1]) + DigitValue(s[|s| - 1])
  }

  /** The sign text parseInt accepts before the digits. */
  predicate IsSignText(sign: string)
  {
    sign == "" || sign == "+" || sign == "-"
  }

  function SignedValue(sign: string, digits: string): int
    requires AllDigits(digits)
  {
    if sign == "-" then -(DigitsValue(digits) as int) else DigitsValue(digits)
  }

  /** What remains after the leading white space is dropped. */
  function SkipWhitespace(s: string): string
  {
    if s != [] && IsJsWhitespace(s[0]) then SkipWhitespace(s[1..]) else s
  }

  /** SkipWhitespace drops a prefix made only of white space, and what it
      keeps does not start with white space. */
  lemma {:induction false} SkipWhitespaceSpec(s: string)
    ensures var r := SkipWhitespace(s);
      && |r| <= |s| && r == s[|s| - |r|..]
      && AllWhitespace(s[..|s| - |r|])
      && (r == [] || !IsJsWhitespace(r[0]))
  {
    if s != [] && IsJsWhitespace(s[0]) {
      SkipWhitespaceSpec(s[1..]);
      var r := SkipWhitespace(s[1..]);
      assert forall i :: 1 <= i < |s| - |r| ==> s[i] == s[1..][..|s| - 1 - |r|][i - 1];
    }
  }

  /** The longest prefix of s made of decimal digits. */
  function LeadingDigits(s: string): string
  {
    if s != [] && IsDigit(s[0]) then [s[0]] + LeadingDigits(s[1..]) else []
  }

  /** LeadingDigits is a prefix of digits that cannot be extended. */
  lemma {:induction false} LeadingDigitsSpec(s: string)
    ensures var d := LeadingDigits(s);
      && |d| <= |s| && d == s[..|d|] && AllDigits(d)
      && (|d| == |s| || !IsDigit(s[|d|]))
  {
    if s != [] && IsDigit(s[0]) {
      LeadingDigitsSpec(s[1..]);
    }
  }

  /** The length of the sign parseInt reads at the start of t: 1 for a
      leading '+' or '-', 0 otherwise. */
  function SignLength(t: string): (k: nat)
    ensures k <= |t|
  {
    if t != [] && (t[0] == '-' || t[0] == '+') then 1 else 0
  }

  /** `parseInt(s, 10)`. */
  function ParseInt10(s: string): JsNumber
  {
    var t := SkipWhitespace(s);
    var k := SignLength(t);
    var digits := LeadingDigits(t[k..]);
    LeadingDigitsSpec(t[k..]);
    if digits == [] then NaN
    else Num(SignedValue(t[..k], digits))
  }

  /** s starts with white space, an optional sign and at least one digit. */
  ghost predicate HasIntegerPrefix(s: string)
  {
    exists i, j :: 0 <= i <= j < |s| && AllWhitespace(s[..i]) && IsSignText(s[i..j]) && IsDigit(s[j])
  }

  lemma {:induction false} SkipWhitespaceOf(ws: string, t: string)
    requires AllWhitespace(ws)
    requires t == [] || !IsJsWhitespace(t[0])
    ensures SkipWhitespace(ws + t) == t
  {
    if ws == [] {
      assert ws + t == t;
    } else {
      assert (ws + t)[0] == ws[0];
      assert (ws + t)[1..] == ws[1..] + t;
      assert AllWhitespace(ws[1..]) by {
        forall i | 0 <= i < |ws[1..]| ensures IsJsWhitespace(ws[1..][i]) {
          assert ws[1..][i] == ws[i + 1];
        }
      }
      SkipWhitespaceOf(ws[1..], t);
    }
  }

  lemma {:induction false} LeadingDigitsOf(digits: string, rest: string)
    requires AllDigits(digits)
    requires rest == [] || !IsDigit(rest[0])
    ensures LeadingDigits(digits + rest) == digits
  {
    if digits == [] {
      assert digits + rest == rest;
    } else {
      assert (digits + rest)[0] == digits[0];
      assert (digits + rest)[1..] == digits[1..] + rest;
      assert AllDigits(digits[1..]) by {
        forall i | 0 <= i < |digits[1..]| ensures IsDigit(digits[1..][i]) {
          assert digits[1..][i] == digits[i + 1];
        }
      }
      LeadingDigitsOf(digits[1..], rest);
    }
  }

  /** Every string of the shape white space, sign, digits, then text not
      starting with a digit parses to the signed value of the digits:
      trailing text never changes the result. */
  lemma ParseIntOfShape(ws: string, sign: string, digits: string, rest: string)
    requires AllWhitespace(ws) && IsSignText(sign)
    requires digits != [] && AllDigits(digits)
    requires rest == [] || !IsDigit(rest[0])
    ensures ParseInt10(ws + sign + digits + rest) == Num(SignedValue(sign, digits))
  {
    var s := ws + sign + digits + rest;
    var u := digits + rest;
    var t := sign + u;
    assert s == ws + t;
    assert t[0] == if sign == "" then digits[0] else sign[0];
    SkipWhitespaceOf(ws, t);
    assert SkipWhitespace(s) == t;
    assert SignLength(t) == |sign|;
    assert t[..|sign|] == sign && t[|sign|..] == u;
    LeadingDigitsOf(digits, rest);
    assert LeadingDigits(u) == digits;
  }

  /** A number comes back only when a digit follows the white space and sign. */
  lemma ParseIntNumHasPrefix(s: string)
    requires ParseInt10(s).Num?
    ensures HasIntegerPrefix(s)
  {
    var t := SkipWhitespace(s);
    SkipWhitespaceSpec(s);
    var i := |s| - |t|;
    var j := i + SignLength(t);
    assert t[SignLength(t)..] == s[j..];
    LeadingDigitsSpec(s[j..]);
    assert IsDigit(s[j]);
    assert IsSignText(s[i..j]) by {
      if SignLength(t) == 1 {
        assert s[i..j] == [t[0]];
      } else {
        assert s[i..j] == [];
      }
    }
  }

  /** Signs and digits are not white space. */
  lemma SignOrDigitIsNotWhitespace(c: char)
    requires c == '+' || c == '-' || IsDigit(c)
    ensures !IsJsWhitespace(c)
  {
  }

  /** A digit after white space and an optional sign always gives a number. */
  lemma PrefixParsesToNum(s: string, i: nat, j: nat)
    requires i <= j < |s| && AllWhitespace(s[..i]) && IsSignText(s[i..j]) && IsDigit(s[j])
    ensures ParseInt10(s).Num?
  {
    var t := s[i..];
    assert s == s[..i] + t;
    assert t[0] == s[i] && t[j - i] == s[j];
    var sign := s[i..j];
    assert sign != [] ==> sign[0] == s[i];
    SignOrDigitIsNotWhitespace(s[i]);
    SkipWhitespaceOf(s[..i], t);
    assert SignLength(t) == j - i;
    assert t[j - i..][0] == s[j];
  }

  /** parseInt yields NaN exactly when no digit follows the leading white
      space and optional sign. */
  lemma ParseIntNaNIff(s: string)
    ensures ParseInt10(s) == NaN <==> !HasIntegerPrefix(s)
  {
    if ParseInt10(s).Num? {
      ParseIntNumHasPrefix(s);
    }
    if HasIntegerPrefix(s) {
      var i, j :| 0 <= i <= j < |s| && AllWhitespace(s[..i]) && IsSignText(s[i..j]) && IsDigit(s[j]);
      PrefixParsesToNum(s, i, j);
    }
  }

  /** A leading '0' never changes the value of a run of digits. */
  lemma {:induction false} DigitsValueLeadingZero(s: string)
    requires AllDigits(s)
    ensures AllDigits("0" + s) && DigitsValue("0" + s) == DigitsValue(s)
  {
    var z := "0" + s;
    if s == [] {
      assert z[..0] == [];
    } else {
      var p := s[..|s| - 1];
      assert z[..|z| - 1] == "0" + p;
      assert z[|z| - 1] == s[|s| - 1];
      DigitsValueLeadingZero(p);
    }
  }

  /** Any number of leading '0's leave the value of a run of digits alone. */
  lemma {:induction false} DigitsValueZeroPadded(n: nat, s: string)
    requires AllDigits(s)
    ensures AllDigits(Zeros(n) + s) && DigitsValue(Zeros(n) + s) == DigitsValue(s)
  {
    if n > 0 {
      DigitsValueZeroPadded(n - 1, s);
      assert Zeros(n) + s == "0" + (Zeros(n - 1) + s);
      DigitsValueLeadingZero(Zeros(n - 1) + s);
    } else {
      assert Zeros(n) + s == s;
    }
  }

  /** Digits followed by text that does not start with a digit parse to the
      value of the digits: `parseInt("5x", 10)` is 5. */
  lemma ParseIntIgnoresSuffix(digits: string, rest: string)
    requires digits != [] && AllDigits(digits)
    requires rest == [] || !IsDigit(rest[0])
    ensures ParseInt10(digits + rest) == Num(DigitsValue(digits))
  {
    assert "" + "" + digits + rest == digits + rest;
    ParseIntOfShape("", "", digits, rest);
  }

  /** A plain run of digits parses to its own value. */
  lemma ParseIntOfDigits(s: string)
    requires s != [] && AllDigits(s)
    ensures ParseInt10(s) == Num(DigitsValue(s))
  {
    assert s + "" == s;
    ParseIntIgnoresSuffix(s, "");
  }
}
