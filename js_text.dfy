/** The parts of JavaScript's string semantics the form relies on.
    A Dafny `string` is a sequence of Unicode scalar values, whereas a
    JavaScript string is a sequence of UTF-16 code units; `length` and
    `padStart` count code units, so they are modelled through JsLength. */
module JsText {

  /** Number of UTF-16 code units JavaScript needs for c: a surrogate pair
      above U+FFFF, a single unit otherwise. */
  function CodeUnits(c: char): nat
  {
    if c as int >= 0x1_0000 then 2 else 1
  }

  /** `String.prototype.length`: the count of UTF-16 code units. */
  function JsLength(s: string): (n: nat)
    ensures |s| <= n <= 2 * |s|
  {
    if s == [] then 0 else CodeUnits(s[0]) + JsLength(s[1..])
  }

  /** Every character lies in the Basic Multilingual Plane. */
  predicate InBmp(s: string)
  {
    forall i :: 0 <= i < |s| ==> s[i] as int < 0x1_0000
  }

  lemma {:induction false} JsLengthOfBmp(s: string)
    requires InBmp(s)
    ensures JsLength(s) == |s|
  {
    if s != [] {
      assert InBmp(s[1..]) by {
        forall i | 0 <= i < |s[1..]| ensures s[1..][i] as int < 0x1_0000 {
          assert s[1..][i] == s[i + 1];
        }
      }
      JsLengthOfBmp(s[1..]);
    }
  }

  lemma {:induction false} JsLengthAppend(a: string, b: string)
    ensures JsLength(a + b) == JsLength(a) + JsLength(b)
  {
    if a == [] {
      assert a + b == b;
    } else {
      assert (a + b)[0] == a[0];
      assert (a + b)[1..] == a[1..] + b;
      JsLengthAppend(a[1..], b);
    }
  }

  /** n copies of the fill character '0'. */
  function Zeros(n: nat): string
  {
    seq(n, _ => '0')
  }

  /** `s.padStart(targetLength, '0')`: when s is shorter than targetLength
      code units, '0's are put in front until it is exactly that long;
      otherwise s comes back unchanged. */
  function PadStart(s: string, targetLength: nat): (r: string)
    ensures JsLength(r) == if JsLength(s) < targetLength then targetLength else JsLength(s)
    ensures |s| <= |r| && r[|r| - |s|..] == s
    ensures forall i :: 0 <= i < |r| - |s| ==> r[i] == '0'
  {
    if JsLength(s) >= targetLength then s
    else
      var z := Zeros(targetLength - JsLength(s));
      JsLengthOfBmp(z);
      JsLengthAppend(z, s);
      assert (z + s)[|z|..] == s;
      z + s
  }

  /** The three cases of `padStart(2, '0')` that the date format relies on. */
  lemma PadStartToTwo(s: string)
    ensures JsLength(s) == 0 ==> PadStart(s, 2) == "00"
    ensures JsLength(s) == 1 ==> PadStart(s, 2) == "0" + s
    ensures JsLength(s) >= 2 ==> PadStart(s, 2) == s
  {
    if JsLength(s) == 0 {
      assert s == [];
      assert Zeros(2) == "00";
    } else if JsLength(s) == 1 {
      assert Zeros(1) == "0";
    }
  }

  /** ECMAScript's StrWhiteSpaceChar: the WhiteSpace code points (TAB, VT,
      FF, ZWNBSP and every member of the Unicode category Zs) and the
      LineTerminator code points (LF, CR, LS, PS). */
  predicate IsJsWhitespace(c: char)
  {
    || c == '\t' || c == '\n' || c == '\U{000B}' || c == '\U{000C}' || c == '\r'
    || c == ' ' || c == '\U{00A0}' || c == '\U{1680}'
    || ('\U{2000}' <= c <= '\U{200A}')
    || c == '\U{2028}' || c == '\U{2029}' || c == '\U{202F}' || c == '\U{205F}'
    || c == '\U{3000}' || c == '\U{FEFF}'
  }
}
