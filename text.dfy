/** Character and string helpers with Python's meaning: ASCII digits, decimal
    numerals, `str.upper`, `str.strip` and `int(str)`. */
module Text {
  import opened Common

  predicate IsDigit(c: char) { '0' <= c <= '9' }

  predicate IsLower(c: char) { 'a' <= c <= 'z' }

  predicate IsUpper(c: char) { 'A' <= c <= 'Z' }

  /** The ASCII characters Python's `str.isspace` accepts. */
  predicate IsSpace(c: char) { c == ' ' || '\t' <= c <= '\r' || '\U{1C}' <= c <= '\U{1F}' }

  predicate AllDigits(s: string) { forall i :: 0 <= i < |s| ==> IsDigit(s[i]) }

  /** One or more decimal digits. */
  predicate IsNumeral(d: string) { d != [] && AllDigits(d) }

  function DigitValue(c: char): (d: nat)
    requires IsDigit(c)
    ensures d < 10
  {
    (c as int - '0' as int) as nat
  }

  function DigitChar(d: nat): (c: char)
    requires d < 10
    ensures IsDigit(c) && DigitValue(c) == d
  {
    (d + '0' as int) as char
  }

  /** The value of a numeral, most significant digit first (a character
      that is not a digit counts as 0; callers pass numerals). */
  function Decimal(s: string): nat
  {
    if s == [] then 0 else
      var last := s[|s| - 1];
      10 * Decimal(s[..|s| - 1]) + (if IsDigit(last) then DigitValue(last) else 0)
  }

  /** The shortest numeral of `n` (Python's `str(n)`). */
  function Show(n: nat): (s: string)
    ensures |s| >= 1 && AllDigits(s) && Decimal(s) == n
  {
    if n < 10 then [DigitChar(n)] else
      var prefix := Show(n / 10);
      assert (prefix + [DigitChar(n % 10)])[..|prefix|] == prefix;
      prefix + [DigitChar(n % 10)]
  }

  /** The length of the longest run of digits at the start of `s`: what a
      greedy `\d+` (or `\d*`) consumes. */
  function DigitRun(s: string): (n: nat)
    ensures n <= |s|
  {
    if s != [] && IsDigit(s[0]) then 1 + DigitRun(s[1..]) else 0
  }

  /** The run is all digits and cannot be extended. */
  lemma {:induction false} DigitRunMaximal(s: string)
    ensures AllDigits(s[..DigitRun(s)])
    ensures DigitRun(s) == |s| || !IsDigit(s[DigitRun(s)])
  {
    if s != [] && IsDigit(s[0]) {
      DigitRunMaximal(s[1..]);
      var n := DigitRun(s);
      assert s[..n] == [s[0]] + s[1..][..n - 1];
      assert n == |s| || s[n] == s[1..][n - 1];
    }
  }

  /** Whatever follows a numeral does not extend it unless it is a digit. */
  lemma {:induction false} DigitRunOfNumeral(d: string, rest: string)
    requires AllDigits(d)
    requires rest == [] || !IsDigit(rest[0])
    ensures DigitRun(d + rest) == |d|
  {
    if d != [] {
      assert (d + rest)[1..] == d[1..] + rest;
      DigitRunOfNumeral(d[1..], rest);
    }
  }

  function UpperChar(c: char): (u: char)
    ensures IsLower(c) ==> IsUpper(u)
    ensures !IsLower(c) ==> u == c
  {
    if IsLower(c) then (c as int - 'a' as int + 'A' as int) as char else c
  }

  /** `str.upper` on ASCII text: lower-case letters map to upper case, every
      other character is kept. */
  function Upper(s: string): (u: string)
    ensures |u| == |s|
    ensures forall i :: 0 <= i < |s| ==> u[i] == UpperChar(s[i])
  {
    seq(|s|, i requires 0 <= i < |s| => UpperChar(s[i]))
  }

  lemma UpperIdempotent(s: string)
    ensures Upper(Upper(s)) == Upper(s)
  {
  }

  function TrimLeft(s: string): string
  {
    if s != [] && IsSpace(s[0]) then TrimLeft(s[1..]) else s
  }

  function TrimRight(s: string): string
  {
    if s != [] && IsSpace(s[|s| - 1]) then TrimRight(s[..|s| - 1]) else s
  }

  /** `str.strip()` without arguments. */
  function Strip(s: string): string
  {
    TrimRight(TrimLeft(s))
  }

  /** The text after an optional leading sign, and whether it was '-'. */
  function Unsigned(t: string): (r: (bool, string))
    ensures |r.1| <= |t|
  {
    if t != [] && (t[0] == '+' || t[0] == '-') then (t[0] == '-', t[1..]) else (false, t)
  }

  /** Python's `int(s)` on a string: surrounding white space is ignored, an
      optional sign precedes at least one digit; anything else raises
      ValueError (None here). */
  function ParseInt(s: string): Option<int>
  {
    var (negative, digits) := Unsigned(Strip(s));
    if IsNumeral(digits) then
      Some(if negative then -(Decimal(digits) as int) else Decimal(digits))
    else None
  }

  /** int(str(n)) == n, with or without a sign, with or without surrounding
      white space. */
  lemma ParseIntShow(pre: string, sign: string, n: nat, post: string)
    requires forall i :: 0 <= i < |pre| ==> IsSpace(pre[i])
    requires forall i :: 0 <= i < |post| ==> IsSpace(post[i])
    requires sign == "" || sign == "+" || sign == "-"
    ensures ParseInt(pre + sign + Show(n) + post) == Some(if sign == "-" then -(n as int) else n)
  {
    ParseIntPaddedNumeral(pre, sign, Show(n), post);
  }

  lemma ParseIntPaddedNumeral(pre: string, sign: string, digits: string, post: string)
    requires forall i :: 0 <= i < |pre| ==> IsSpace(pre[i])
    requires forall i :: 0 <= i < |post| ==> IsSpace(post[i])
    requires sign == "" || sign == "+" || sign == "-"
    requires IsNumeral(digits)
    ensures ParseInt(pre + sign + digits + post) == Some(if sign == "-" then -(Decimal(digits) as int) else Decimal(digits))
  {
    var core := sign + digits;
    assert pre + sign + digits + post == pre + (core + post);
    assert core[|core| - 1] == digits[|digits| - 1];
    ParseIntPadded(pre, core, post);
    ParseIntNumeral(sign, digits);
  }

  lemma ParseIntNumeral(sign: string, digits: string)
    requires sign == "" || sign == "+" || sign == "-"
    requires IsNumeral(digits)
    ensures ParseInt(sign + digits) == Some(if sign == "-" then -(Decimal(digits) as int) else Decimal(digits))
  {
    if sign == "" {
      assert sign + digits == digits;
      ParseIntUnsigned(digits);
    } else {
      ParseIntSignChar(sign[0], digits);
      assert sign + digits == [sign[0]] + digits;
    }
  }

  lemma ParseIntUnsigned(digits: string)
    requires IsNumeral(digits)
    ensures ParseInt(digits) == Some(Decimal(digits) as int)
  {
    StripBare(digits);
  }

  lemma ParseIntSignChar(sign: char, digits: string)
    requires sign == '+' || sign == '-'
    requires IsNumeral(digits)
    ensures ParseInt([sign] + digits) == Some(if sign == '-' then -(Decimal(digits) as int) else Decimal(digits))
  {
    var core := [sign] + digits;
    StripBare(core);
    assert core[1..] == digits;
  }

  lemma ParseIntPadded(pre: string, core: string, post: string)
    requires forall i :: 0 <= i < |pre| ==> IsSpace(pre[i])
    requires forall i :: 0 <= i < |post| ==> IsSpace(post[i])
    requires core != [] && !IsSpace(core[0]) && !IsSpace(core[|core| - 1])
    ensures ParseInt(pre + (core + post)) == ParseInt(core)
  {
    StripPadded(pre, core, post);
    StripBare(core);
    ParseIntOfStripped(pre + (core + post), core);
  }

  lemma ParseIntOfStripped(a: string, b: string)
    requires Strip(a) == Strip(b)
    ensures ParseInt(a) == ParseInt(b)
  {
  }

  lemma StripPadded(pre: string, core: string, post: string)
    requires forall i :: 0 <= i < |pre| ==> IsSpace(pre[i])
    requires forall i :: 0 <= i < |post| ==> IsSpace(post[i])
    requires core != [] && !IsSpace(core[0]) && !IsSpace(core[|core| - 1])
    ensures Strip(pre + (core + post)) == core
  {
    TrimLeftSpaces(pre, core + post);
    TrimRightSpaces(core, post);
  }

  lemma StripBare(core: string)
    requires core != [] && !IsSpace(core[0]) && !IsSpace(core[|core| - 1])
    ensures Strip(core) == core
  {
  }

  lemma {:induction false} TrimLeftSpaces(pre: string, s: string)
    requires forall i :: 0 <= i < |pre| ==> IsSpace(pre[i])
    requires s != [] && !IsSpace(s[0])
    ensures TrimLeft(pre + s) == s
  {
    if pre != [] {
      assert (pre + s)[1..] == pre[1..] + s;
      TrimLeftSpaces(pre[1..], s);
    }
  }

  lemma {:induction false} TrimRightSpaces(s: string, post: string)
    requires forall i :: 0 <= i < |post| ==> IsSpace(post[i])
    requires s != [] && !IsSpace(s[|s| - 1])
    ensures TrimRight(s + post) == s
  {
    if post != [] {
      var shorter := post[..|post| - 1];
      assert (s + post)[..|s + post| - 1] == s + shorter;
      TrimRightSpaces(s, shorter);
    } else {
      assert s + post == s;
    }
  }
}
