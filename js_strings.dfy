/** The pieces of the JavaScript string library that the task manager relies on:
    `String.prototype.trim`, `String.prototype.toLowerCase` (for the letters the
    delete confirmation can contain), the global `parseInt` called without a radix
    (section 19.2.5 of ECMA-262, 14th edition) and the decimal rendering of a
    display index. A JavaScript string is a sequence of UTF-16 code units; here a
    string is a sequence of Unicode scalar values, which agrees with it on every
    character these operations inspect. The scanning functions work with
    positions in the string they scan. */
module JsStrings {
  import opened Wrappers

  /** WhiteSpace or LineTerminator (sections 12.2 and 12.3 of ECMA-262): the
      characters that `trim` strips and that `parseInt` skips. */
  predicate IsSpace(c: char) {
    var n := c as int;
    || n == 0x09 || n == 0x0A || n == 0x0B || n == 0x0C || n == 0x0D
    || n == 0x20 || n == 0xA0 || n == 0x1680
    || (0x2000 <= n <= 0x200A)
    || n == 0x2028 || n == 0x2029 || n == 0x202F || n == 0x205F
    || n == 0x3000 || n == 0xFEFF
  }

  // ---------------------------------------------------------------------------
  // trim
  // ---------------------------------------------------------------------------

  /** The position of the first character at or after `i` that is not white
      space, or |s| when there is none. */
  function SkipSpace(s: string, i: nat): (j: nat)
    requires i <= |s|
    ensures i <= j <= |s|
    ensures forall k :: i <= k < j ==> IsSpace(s[k])
    ensures j < |s| ==> !IsSpace(s[j])
    decreases |s| - i
  {
    if i < |s| && IsSpace(s[i]) then SkipSpace(s, i + 1) else i
  }

  /** The position just after the last character before `j` that is not white
      space, or 0 when there is none. */
  function SpaceStart(s: string, j: nat): (i: nat)
    requires j <= |s|
    ensures i <= j
    ensures forall k :: i <= k < j ==> IsSpace(s[k])
    ensures i > 0 ==> !IsSpace(s[i - 1])
  {
    if j > 0 && IsSpace(s[j - 1]) then SpaceStart(s, j - 1) else j
  }

  /** `s` neither starts nor ends with white space. */
  predicate Trimmed(s: string) {
    s == [] || (!IsSpace(s[0]) && !IsSpace(s[|s| - 1]))
  }

  /** `String.prototype.trim`: the part of `s` between its leading and its
      trailing white space. The result neither starts nor ends with white space
      (`TrimIsInfix` says what it keeps). */
  function Trim(s: string): (r: string)
    ensures Trimmed(r)
    ensures |r| <= |s|
  {
    var b := SkipSpace(s, 0);
    var e := SpaceStart(s, |s|);
    if e <= b then []
    else
      assert s[b..e][0] == s[b] && s[b..e][e - b - 1] == s[e - 1];
      s[b..e]
  }

  /** `trim` gives the empty string exactly when `s` is all white space. */
  lemma {:induction false} TrimEmptyIffSpaces(s: string)
    ensures Trim(s) == [] <==> forall i :: 0 <= i < |s| ==> IsSpace(s[i])
  {
    var b := SkipSpace(s, 0);
    var e := SpaceStart(s, |s|);
    if e <= b {
      assert b == |s|;
    } else {
      assert !IsSpace(s[b]);
    }
  }

  /** What `trim` keeps is an infix of `s` with nothing but white space before
      and after it. */
  lemma {:induction false} TrimIsInfix(s: string)
    ensures var i := SkipSpace(s, 0);
      && i + |Trim(s)| <= |s| && Trim(s) == s[i..i + |Trim(s)|]
      && (forall k :: 0 <= k < i ==> IsSpace(s[k]))
      && (forall k :: i + |Trim(s)| <= k < |s| ==> IsSpace(s[k]))
  {
    var b := SkipSpace(s, 0);
    var e := SpaceStart(s, |s|);
    if e <= b {
      assert b == |s|;
    }
  }

  /** Trimming twice is trimming once. */
  lemma {:induction false} TrimOfTrimmed(s: string)
    requires Trimmed(s)
    ensures Trim(s) == s
  {
    if s != [] {
      assert SkipSpace(s, 0) == 0;
      assert SpaceStart(s, |s|) == |s|;
      assert s[0..|s|] == s;
    }
  }

  /** Trimming is idempotent. */
  lemma {:induction false} TrimIdempotent(s: string)
    ensures Trim(Trim(s)) == Trim(s)
  {
    TrimOfTrimmed(Trim(s));
  }

  // ---------------------------------------------------------------------------
  // toLowerCase
  // ---------------------------------------------------------------------------

  /** `toLowerCase` on one character, for the ASCII letters and the Cyrillic
      capitals U+0400 to U+042F; every other character is returned unchanged. */
  function LowerChar(c: char): char {
    var n := c as int;
    if 'A' <= c <= 'Z' || 0x410 <= n <= 0x42F then (n + 0x20) as char
    else if 0x400 <= n <= 0x40F then (n + 0x50) as char
    else c
  }

  /** `String.prototype.toLowerCase`, character by character. */
  function ToLower(s: string): string {
    if s == [] then [] else [LowerChar(s[0])] + ToLower(s[1..])
  }

  /** Lower-casing keeps the length and works position by position. */
  lemma {:induction false} ToLowerAt(s: string)
    ensures |ToLower(s)| == |s|
    ensures forall i :: 0 <= i < |s| ==> ToLower(s)[i] == LowerChar(s[i])
  {
    if s != [] {
      ToLowerAt(s[1..]);
    }
  }

  // ---------------------------------------------------------------------------
  // parseInt
  // ---------------------------------------------------------------------------

  /** A digit of radix 10 or 16, as `parseInt` accepts them ('a' to 'f' in either case). */
  predicate IsDigit(c: char, radix: nat) {
    || ('0' <= c <= '9')
    || (radix == 16 && ('a' <= c <= 'f' || 'A' <= c <= 'F'))
  }

  /** The value of one digit. */
  function DigitValue(c: char): (d: nat)
    ensures '0' <= c <= '9' ==> d == c as int - '0' as int
    ensures d < 16
  {
    if '0' <= c <= '9' then c as int - '0' as int
    else if 'a' <= c <= 'f' then c as int - 'a' as int + 10
    else if 'A' <= c <= 'F' then c as int - 'A' as int + 10
    else 0
  }

  /** The end of the run of digits of `radix` that starts at position `i`. */
  function DigitEnd(s: string, i: nat, radix: nat): (j: nat)
    requires i <= |s|
    ensures i <= j <= |s|
    ensures forall k :: i <= k < j ==> IsDigit(s[k], radix)
    ensures j < |s| ==> !IsDigit(s[j], radix)
    decreases |s| - i
  {
    if i < |s| && IsDigit(s[i], radix) then DigitEnd(s, i + 1, radix) else i
  }

  /** The number that the digits from position `i` up to `j` denote in `radix`
      (most significant first). */
  function DigitsValue(s: string, i: nat, j: nat, radix: nat): nat
    requires i <= j <= |s|
    decreases j - i
  {
    if j == i then 0 else DigitsValue(s, i, j - 1, radix) * radix + DigitValue(s[j - 1])
  }

  /** The position after the leading white space and one sign character. */
  function SignEnd(s: string): (j: nat)
    ensures j <= |s|
  {
    var i := SkipSpace(s, 0);
    if i < |s| && (s[i] == '+' || s[i] == '-') then i + 1 else i
  }

  /** The sign character after the leading white space is a minus. */
  predicate Negative(s: string) {
    var i := SkipSpace(s, 0);
    i < |s| && s[i] == '-'
  }

  /** "0x" or "0X" stands at position `j`. */
  predicate HexAt(s: string, j: nat) {
    j + 1 < |s| && s[j] == '0' && (s[j + 1] == 'x' || s[j + 1] == 'X')
  }

  /** `parseInt(s)` without a radix; `None` stands for NaN. Leading white space
      is skipped, then one optional sign; an "0x" or "0X" after it switches to
      radix 16, and the longest run of digits that follows is the value, its
      sign that of the sign character. Whatever comes after the digits is
      ignored; no digit at all gives NaN. (-0 is 0 here; every caller only
      compares the result with 1.) */
  function ParseInt(s: string): Option<int> {
    ReadDigits(s, SignEnd(s), Negative(s))
  }

  /** The digits part of `parseInt`, from position `j` on: an "0x" or "0X"
      there switches to radix 16, and the longest run of digits that follows
      is the value, negated when `negative`. No digit at all gives NaN. */
  function ReadDigits(s: string, j: nat, negative: bool): Option<int>
    requires j <= |s|
  {
    var hex := HexAt(s, j);
    var radix := if hex then 16 else 10;
    var k := if hex then j + 2 else j;
    var e := DigitEnd(s, k, radix);
    if e == k then None
    else
      var m: int := DigitsValue(s, k, e, radix);
      Some(if negative then -m else m)
  }

  /** When `parseInt` gives NaN: nothing but white space and a sign before the
      first character that is not a decimal digit, or "0x" not followed by a
      hexadecimal digit. Otherwise the value has the sign that was typed. */
  lemma {:induction false} ParseIntNaN(s: string)
    ensures var j := SignEnd(s);
      ParseInt(s).None? <==>
        || j == |s| || !('0' <= s[j] <= '9')
        || (HexAt(s, j) && (j + 2 == |s| || !IsDigit(s[j + 2], 16)))
    ensures ParseInt(s).Some? && ParseInt(s).value < 0 ==> Negative(s)
  {
  }

  /** A run of digits followed by a non-digit is read up to the non-digit. */
  lemma {:induction false} DigitEndOfRun(s: string, i: nat, e: nat, radix: nat)
    requires i <= e <= |s|
    requires forall k :: i <= k < e ==> IsDigit(s[k], radix)
    requires e == |s| || !IsDigit(s[e], radix)
    ensures DigitEnd(s, i, radix) == e
    decreases e - i
  {
    if i < e {
      DigitEndOfRun(s, i + 1, e, radix);
    }
  }

  /** The value of digits inside a prefix does not depend on what follows it. */
  lemma {:induction false} DigitsValuePrefix(a: string, b: string, i: nat, j: nat, radix: nat)
    requires i <= j <= |a|
    ensures DigitsValue(a + b, i, j, radix) == DigitsValue(a, i, j, radix)
    decreases j - i
  {
    if j > i {
      DigitsValuePrefix(a, b, i, j - 1, radix);
      assert (a + b)[j - 1] == a[j - 1];
    }
  }

  /** The value of digits does not depend on what precedes them. */
  lemma {:induction false} DigitsValueShift(p: string, s: string, i: nat, j: nat, radix: nat)
    requires i <= j <= |s|
    ensures DigitsValue(p + s, |p| + i, |p| + j, radix) == DigitsValue(s, i, j, radix)
    decreases j - i
  {
    if j > i {
      DigitsValueShift(p, s, i, j - 1, radix);
      assert (p + s)[|p| + j - 1] == s[j - 1];
    }
  }

  /** A run of digits ends at the same place whatever precedes it. */
  lemma {:induction false} DigitEndShift(p: string, s: string, i: nat, radix: nat)
    requires i <= |s|
    ensures DigitEnd(p + s, |p| + i, radix) == |p| + DigitEnd(s, i, radix)
    decreases |s| - i
  {
    if i < |s| {
      assert (p + s)[|p| + i] == s[i];
      DigitEndShift(p, s, i + 1, radix);
    }
  }

  /** Skipping white space that is followed by a non-space stops right after it. */
  lemma {:induction false} SkipSpaceOfSpaces(ws: string, s: string, i: nat)
    requires i <= |ws|
    requires forall k :: 0 <= k < |ws| ==> IsSpace(ws[k])
    requires s == [] || !IsSpace(s[0])
    ensures SkipSpace(ws + s, i) == |ws|
    decreases |ws| - i
  {
    if i < |ws| {
      assert (ws + s)[i] == ws[i];
      SkipSpaceOfSpaces(ws, s, i + 1);
    } else if s != [] {
      assert (ws + s)[i] == s[0];
    }
  }

  /** The digits part reads the same text the same way whatever precedes it. */
  lemma {:induction false} ReadDigitsShift(p: string, s: string, j: nat, negative: bool)
    requires j <= |s|
    ensures ReadDigits(p + s, |p| + j, negative) == ReadDigits(s, j, negative)
  {
    HexAtShift(p, s, j);
    var k := if HexAt(s, j) then j + 2 else j;
    var radix := if HexAt(s, j) then 16 else 10;
    DigitEndShift(p, s, k, radix);
    var e := DigitEnd(s, k, radix);
    DigitsValueShift(p, s, k, e, radix);
  }

  /** An "0x" prefix is recognised whatever precedes it. */
  lemma {:induction false} HexAtShift(p: string, s: string, j: nat)
    requires j <= |s|
    ensures HexAt(p + s, |p| + j) == HexAt(s, j)
  {
    if j + 1 < |s| {
      assert (p + s)[|p| + j] == s[j] && (p + s)[|p| + j + 1] == s[j + 1];
    }
  }

  /** The same text after a prefix of white space reads the same. */
  lemma {:induction false} ParseIntShift(p: string, s: string)
    requires SkipSpace(p + s, 0) == |p| && SkipSpace(s, 0) == 0
    ensures ParseInt(p + s) == ParseInt(s)
  {
    var x := p + s;
    if |s| > 0 {
      assert x[|p|] == s[0];
    }
    assert Negative(x) == Negative(s);
    assert SignEnd(x) == |p| + SignEnd(s);
    ReadDigitsShift(p, s, SignEnd(s), Negative(s));
  }

  /** White space in front of the input does not change what `parseInt` reads. */
  lemma {:induction false} ParseIntSkipsSpace(ws: string, s: string)
    requires forall i :: 0 <= i < |ws| ==> IsSpace(ws[i])
    requires s == [] || !IsSpace(s[0])
    ensures ParseInt(ws + s) == ParseInt(s)
  {
    SkipSpaceOfSpaces(ws, s, 0);
    SkipSpaceOfSpaces([], s, 0);
    assert [] + s == s;
    ParseIntShift(ws, s);
  }

  // ---------------------------------------------------------------------------
  // Decimal rendering of a natural number
  // ---------------------------------------------------------------------------

  function DigitChar(d: nat): (c: char)
    requires d < 10
    ensures '0' <= c <= '9' && DigitValue(c) == d
  {
    ('0' as int + d) as char
  }

  /** The decimal numeral of `n`, as a template literal `${n}` shows it: digits
      only, and no leading zero unless `n` is zero. */
  function Decimal(n: nat): (r: string)
    ensures |r| >= 1
    ensures forall i :: 0 <= i < |r| ==> '0' <= r[i] <= '9'
    ensures r[0] == '0' ==> n == 0
  {
    if n < 10 then [DigitChar(n)] else Decimal(n / 10) + [DigitChar(n % 10)]
  }

  /** Reading the decimal numeral of `n` gives back `n`. */
  lemma {:induction false} DecimalValue(n: nat)
    ensures DigitsValue(Decimal(n), 0, |Decimal(n)|, 10) == n
  {
    var d := Decimal(n);
    if n >= 10 {
      var h := Decimal(n / 10);
      assert d == h + [DigitChar(n % 10)];
      DecimalValue(n / 10);
      DigitsValuePrefix(h, [DigitChar(n % 10)], 0, |h|, 10);
      assert d[|d| - 1] == DigitChar(n % 10);
    }
  }

  /** The digits of a decimal numeral followed by a non-digit: where they end
      and what they are worth. */
  lemma {:induction false} DecimalDigits(n: nat, rest: string)
    requires rest == [] || !IsDigit(rest[0], 10)
    ensures var s := Decimal(n) + rest;
      && DigitEnd(s, 0, 10) == |Decimal(n)|
      && DigitsValue(s, 0, |Decimal(n)|, 10) == n
  {
    var d := Decimal(n);
    var s := d + rest;
    forall k | 0 <= k < |d| ensures IsDigit(s[k], 10) {
      assert s[k] == d[k];
    }
    if rest != [] {
      assert s[|d|] == rest[0];
    }
    DigitEndOfRun(s, 0, |d|, 10);
    DigitsValuePrefix(d, rest, 0, |d|, 10);
    DecimalValue(n);
  }

  /** `parseInt` reads back a decimal numeral followed by anything that is not a
      digit, except that "0" followed by "x" or "X" starts a hexadecimal
      numeral. */
  lemma {:induction false} ParseIntOfDecimal(n: nat, rest: string)
    requires rest == [] || !IsDigit(rest[0], 10)
    requires n == 0 ==> rest == [] || (rest[0] != 'x' && rest[0] != 'X')
    ensures ParseInt(Decimal(n) + rest) == Some(n)
  {
    var d := Decimal(n);
    var s := d + rest;
    assert s[0] == d[0];
    assert SkipSpace(s, 0) == 0 && SignEnd(s) == 0 && !Negative(s);
    DecimalDigitsRead(n, rest);
  }

  /** The digits part reads a decimal numeral followed by a non-digit as its
      value (with the same exception for "0x"). */
  lemma {:induction false} DecimalDigitsRead(n: nat, rest: string)
    requires rest == [] || !IsDigit(rest[0], 10)
    requires n == 0 ==> rest == [] || (rest[0] != 'x' && rest[0] != 'X')
    ensures ReadDigits(Decimal(n) + rest, 0, false) == Some(n)
    ensures ReadDigits(Decimal(n) + rest, 0, true) == Some(-(n as int))
  {
    var d := Decimal(n);
    var s := d + rest;
    assert !HexAt(s, 0) by {
      assert s[0] == d[0];
      if |d| > 1 { assert s[1] == d[1]; }
      else if rest != [] { assert s[1] == rest[0]; }
    }
    DecimalDigits(n, rest);
  }

  /** A minus sign in front of a decimal numeral makes the result negative. */
  lemma {:induction false} ParseIntOfNegative(n: nat, rest: string)
    requires rest == [] || !IsDigit(rest[0], 10)
    requires n == 0 ==> rest == [] || (rest[0] != 'x' && rest[0] != 'X')
    ensures ParseInt("-" + Decimal(n) + rest) == Some(-(n as int))
  {
    var d := Decimal(n);
    var u := d + rest;
    var s := "-" + u;
    assert "-" + Decimal(n) + rest == s;
    assert s[0] == '-';
    assert SkipSpace(s, 0) == 0 && SignEnd(s) == 1 && Negative(s);
    DecimalDigitsRead(n, rest);
    ReadDigitsShift("-", u, 0, true);
  }

  /** Inputs a user might type at the "task number" prompt. */
  lemma {:induction false} ParseIntOfThree()
    ensures ParseInt("3") == Some(3)
  {
    assert Decimal(3) == "3";
    assert "3" == Decimal(3) + "";
    ParseIntOfDecimal(3, "");
  }

  lemma {:induction false} ParseIntOfTwelveAbc()
    ensures ParseInt("12abc") == Some(12)
  {
    assert Decimal(1) == "1";
    assert Decimal(12) == Decimal(1) + [DigitChar(2)];
    assert Decimal(12) == "12";
    assert "12abc" == Decimal(12) + "abc";
    ParseIntOfDecimal(12, "abc");
  }

  lemma {:induction false} ParseIntOfFraction()
    ensures ParseInt("2.5") == Some(2)
  {
    assert Decimal(2) == "2";
    assert "2.5" == Decimal(2) + ".5";
    ParseIntOfDecimal(2, ".5");
  }

  lemma {:induction false} ParseIntOfMinusOne()
    ensures ParseInt("-1") == Some(-1)
  {
    assert Decimal(1) == "1";
    assert "-1" == "-" + Decimal(1) + "";
    ParseIntOfNegative(1, "");
  }
}
