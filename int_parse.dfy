/**
 * `int.TryParse(string, out int)` with the default `NumberStyles.Integer`:
 * optional leading and trailing white space, an optional sign, at least one
 * ASCII decimal digit, and a value inside the Int32 range. Also the canonical
 * decimal rendering `int.ToString()`, which TryParse reads back.
 */
module IntParse {
  import opened Results
  import opened Int32

  /** The white space `NumberStyles.AllowLeadingWhite`/`AllowTrailingWhite` skip: U+0009..U+000D and U+0020. */
  predicate IsWhite(c: char) {
    c == ' ' || '\t' <= c <= '\r'
  }

  predicate IsDigit(c: char) {
    '0' <= c <= '9'
  }

  predicate AllDigits(s: string) {
    forall i :: 0 <= i < |s| ==> IsDigit(s[i])
  }

  /** A character TryParse can accept somewhere in an integer. */
  predicate IsIntegerChar(c: char) {
    IsWhite(c) || IsDigit(c) || c == '+' || c == '-'
  }

  /** The number of white-space characters `s` starts with. */
  function LeadingWhite(s: string): (n: nat)
    ensures n <= |s|
    ensures forall i :: 0 <= i < n ==> IsWhite(s[i])
    ensures n < |s| ==> !IsWhite(s[n])
  {
    if |s| > 0 && IsWhite(s[0]) then 1 + LeadingWhite(s[1..]) else 0
  }

  /** The number of white-space characters `s` ends with. */
  function TrailingWhite(s: string): (n: nat)
    ensures n <= |s|
    ensures forall i :: |s| - n <= i < |s| ==> IsWhite(s[i])
    ensures n < |s| ==> !IsWhite(s[|s| - n - 1])
  {
    if |s| > 0 && IsWhite(s[|s| - 1]) then 1 + TrailingWhite(s[..|s| - 1]) else 0
  }

  /** `s` without its leading and trailing white space. */
  function Trim(s: string): string {
    var t := s[LeadingWhite(s)..];
    t[..|t| - TrailingWhite(t)]
  }

  function DigitValue(c: char): nat
    requires IsDigit(c)
  {
    c as int - '0' as int
  }

  function DigitChar(d: nat): (c: char)
    requires d < 10
    ensures IsDigit(c) && DigitValue(c) == d
  {
    ('0' as int + d) as char
  }

  /** The value of a string of decimal digits, most significant first. */
  function DigitsValue(s: string): nat
    requires AllDigits(s)
  {
    if |s| == 0 then 0
    else DigitsValue(s[..|s| - 1]) * 10 + DigitValue(s[|s| - 1])
  }

  /** `int.TryParse(s, out v)`: `Some(v)` when it returns true, `None` when it returns false. */
  function TryParseInt32(s: string): (r: Option<Int32>)
    ensures r.Some? ==> exists i :: 0 <= i < |s| && IsDigit(s[i])
    ensures r.Some? ==> forall i :: 0 <= i < |s| ==> IsIntegerChar(s[i])
  {
    var u := Trim(s);
    var negative := |u| > 0 && u[0] == '-';
    var digits := if |u| > 0 && (u[0] == '-' || u[0] == '+') then u[1..] else u;
    if |digits| == 0 || !AllDigits(digits) then None
    else
      var magnitude: int := DigitsValue(digits);
      var v: int := if negative then -magnitude else magnitude;
      if InRange(v) then
        TryParseAccepts(s, u, digits);
        Some(v)
      else None
  }

  /** What an accepted token is made of: white space around a sign and the digits. */
  lemma TryParseAccepts(s: string, u: string, digits: string)
    requires u == Trim(s)
    requires |digits| > 0 && AllDigits(digits)
    requires digits == (if |u| > 0 && (u[0] == '-' || u[0] == '+') then u[1..] else u)
    ensures exists i :: 0 <= i < |s| && IsDigit(s[i])
    ensures forall i :: 0 <= i < |s| ==> IsIntegerChar(s[i])
  {
    var lead := LeadingWhite(s);
    var t := s[lead..];
    var trail := TrailingWhite(t);
    assert u == s[lead..|s| - trail];
    var off := if |u| > 0 && (u[0] == '-' || u[0] == '+') then 1 else 0;
    assert IsDigit(s[lead + off]) by { assert s[lead + off] == digits[0]; }
    forall i | 0 <= i < |s|
      ensures IsIntegerChar(s[i])
    {
      if i >= |s| - trail {
        assert s[i] == t[i - lead];
      } else if i >= lead + off {
        assert s[i] == digits[i - lead - off];
      }
    }
  }

  /** The decimal digits of `n`, most significant first, without leading zeros. */
  function Digits(n: nat): (r: string)
    ensures |r| > 0 && AllDigits(r)
  {
    if n < 10 then [DigitChar(n)] else Digits(n / 10) + [DigitChar(n % 10)]
  }

  /** `x.ToString()` for an Int32 `x` in the invariant culture. */
  function Render(x: Int32): (r: string)
    ensures |r| > 0
    ensures forall i :: 0 <= i < |r| ==> IsDigit(r[i]) || r[i] == '-'
  {
    if x < 0 then "-" + Digits(-(x as int)) else Digits(x)
  }

  /** Reading the digits of `n` gives `n`. */
  lemma {:induction false} DigitsValueDigits(n: nat)
    ensures DigitsValue(Digits(n)) == n
  {
    if n >= 10 {
      var ds := Digits(n);
      assert ds[..|ds| - 1] == Digits(n / 10);
      DigitsValueDigits(n / 10);
    }
  }

  /** Round trip: TryParse reads back every rendered Int32. */
  lemma TryParseRender(x: Int32)
    ensures TryParseInt32(Render(x)) == Some(x)
  {
    var s := Render(x);
    assert !IsWhite(s[0]) && !IsWhite(s[|s| - 1]);
    assert Trim(s) == s;
    if x < 0 {
      var m: nat := -(x as int);
      assert s[1..] == Digits(m);
      DigitsValueDigits(m);
    } else {
      DigitsValueDigits(x);
    }
  }
}
