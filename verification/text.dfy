/** The few JavaScript string operations the model needs, on `seq<char>`:
    `startsWith`, `includes`, ASCII `toLowerCase`, the emptiness test of
    `trim()`, `split(c)[0]`, `split(c).pop()` and decimal formatting. */
module Text {
  import opened Wrappers

  predicate StartsWith(s: string, prefix: string) {
    |prefix| <= |s| && s[..|prefix|] == prefix
  }

  /** `s.includes(sub)`, scanning from the left. */
  predicate Contains(s: string, sub: string)
    decreases |s|
  {
    StartsWith(s, sub) || (|s| > 0 && Contains(s[1..], sub))
  }

  /** `sub` occurs in `s` at some position. */
  ghost predicate OccursAt(s: string, sub: string, i: int) {
    0 <= i && i + |sub| <= |s| && s[i..i + |sub|] == sub
  }

  /** The scanning definition of `Contains` agrees with "occurs at some position". */
  lemma {:induction false} ContainsIffOccurs(s: string, sub: string)
    ensures Contains(s, sub) <==> exists i :: OccursAt(s, sub, i)
    decreases |s|
  {
    if StartsWith(s, sub) {
      assert OccursAt(s, sub, 0);
    } else if |s| == 0 {
    } else {
      ContainsIffOccurs(s[1..], sub);
      if Contains(s[1..], sub) {
        var j :| OccursAt(s[1..], sub, j);
        assert s[1..][j..j + |sub|] == s[j + 1..j + 1 + |sub|];
        assert OccursAt(s, sub, j + 1);
      }
      if exists i :: OccursAt(s, sub, i) {
        var i :| OccursAt(s, sub, i);
        if i > 0 {
          assert s[1..][i - 1..i - 1 + |sub|] == s[i..i + |sub|];
          assert OccursAt(s[1..], sub, i - 1);
        }
      }
    }
  }

  /** ASCII lower-casing of one character; every other character is kept. */
  function LowerChar(c: char): (d: char)
    ensures 'A' <= c <= 'Z' ==> 'a' <= d <= 'z' && d as int - c as int == 32
    ensures !('A' <= c <= 'Z') ==> d == c
  {
    if 'A' <= c <= 'Z' then (c as int + 32) as char else c
  }

  function Lower(s: string): (r: string)
    ensures |r| == |s|
    ensures forall i :: 0 <= i < |s| ==> r[i] == LowerChar(s[i])
  {
    seq(|s|, i requires 0 <= i < |s| => LowerChar(s[i]))
  }

  /** Lower-casing an already lower-cased string changes nothing. */
  lemma LowerIdempotent(s: string)
    ensures Lower(Lower(s)) == Lower(s)
  {
    assert forall i :: 0 <= i < |s| ==> LowerChar(LowerChar(s[i])) == LowerChar(s[i]);
  }

  /** The characters `String.prototype.trim` removes: ECMAScript WhiteSpace
      (tab, vertical tab, form feed, space, no-break space, byte-order mark and
      the space separators) and LineTerminator. */
  predicate IsWhitespace(c: char) {
    var n := c as int;
    || (0x09 <= n <= 0x0D) || n == 0x20 || n == 0xA0 || n == 0x1680
    || (0x2000 <= n <= 0x200A) || n == 0x2028 || n == 0x2029
    || n == 0x202F || n == 0x205F || n == 0x3000 || n == 0xFEFF
  }

  /** `!s.trim()`: nothing remains after trimming. */
  predicate IsBlank(s: string) {
    forall i :: 0 <= i < |s| ==> IsWhitespace(s[i])
  }

  /** `s.split(c)[0]`: the text before the first `c`, or all of `s`. */
  function BeforeFirst(s: string, c: char): (r: string)
    ensures |r| <= |s| && r == s[..|r|]
    ensures c !in r
    ensures |r| < |s| ==> s[|r|] == c
  {
    if |s| == 0 || s[0] == c then ""
    else
      var rest := BeforeFirst(s[1..], c);
      assert s[1..][..|rest|] == s[1..|rest| + 1];
      [s[0]] + rest
  }

  /** `s.split(c).pop()`: the text after the last `c`, or all of `s`. */
  function AfterLast(s: string, c: char): (r: string)
    ensures |r| <= |s| && r == s[|s| - |r|..]
    ensures c !in r
    ensures |r| < |s| ==> s[|s| - |r| - 1] == c
  {
    if |s| == 0 || s[|s| - 1] == c then ""
    else
      var front := s[..|s| - 1];
      var rest := AfterLast(front, c);
      assert front[|front| - |rest|..] + [s[|s| - 1]] == s[|s| - |rest| - 1..];
      rest + [s[|s| - 1]]
  }

  function Digit(d: nat): (c: char)
    requires d < 10
    ensures '0' <= c <= '9'
  {
    ("0123456789")[d]
  }

  /** Decimal digits of `n`, as a JavaScript template literal prints a
      non-negative integer. */
  function NatToString(n: nat): (r: string)
    ensures |r| > 0
    ensures forall i :: 0 <= i < |r| ==> '0' <= r[i] <= '9'
  {
    if n < 10 then [Digit(n)] else NatToString(n / 10) + [Digit(n % 10)]
  }

  predicate IsDigit(c: char) {
    '0' <= c <= '9'
  }

  /** The value of a string of decimal digits. */
  function DecimalValue(ds: string): (n: nat)
    requires forall i :: 0 <= i < |ds| ==> IsDigit(ds[i])
    decreases |ds|
  {
    if |ds| == 0 then 0
    else
      assert IsDigit(ds[|ds| - 1]);
      DecimalValue(ds[..|ds| - 1]) * 10 + (ds[|ds| - 1] as int - '0' as int)
  }

  /** The number of decimal digits at the start of `s`. */
  function LeadingDigits(s: string): (k: nat)
    ensures k <= |s|
    ensures forall i :: 0 <= i < k ==> IsDigit(s[i])
    ensures k < |s| ==> !IsDigit(s[k])
  {
    if |s| == 0 || !IsDigit(s[0]) then 0 else 1 + LeadingDigits(s[1..])
  }

  /** `s` without its leading whitespace. */
  function TrimStart(s: string): (r: string)
    ensures |r| <= |s| && r == s[|s| - |r|..]
    ensures |r| > 0 ==> !IsWhitespace(r[0])
  {
    if |s| > 0 && IsWhitespace(s[0]) then TrimStart(s[1..]) else s
  }

  /** `parseInt(s)` in base 10: leading whitespace skipped, an optional sign,
      then as many decimal digits as follow; `None` stands for `NaN`. */
  function ParseInt(s: string): (r: Option<int>)
    ensures r.None? <==> LeadingDigits(SignFree(TrimStart(s))) == 0
  {
    ParseSigned(TrimStart(s))
  }

  /** An optional sign followed by digits. */
  function ParseSigned(t: string): (r: Option<int>)
    ensures r.None? <==> LeadingDigits(SignFree(t)) == 0
  {
    match ParseUnsigned(SignFree(t))
    case None => None
    case Some(m) =>
      var n: int := m;
      var v: int := if |t| > 0 && t[0] == '-' then -n else n;
      Some(v)
  }

  /** The value of the digits at the start of `body`, if there are any. */
  function ParseUnsigned(body: string): (r: Option<nat>)
    ensures r.None? <==> LeadingDigits(body) == 0
  {
    var k := LeadingDigits(body);
    if k == 0 then None else Some(DecimalValue(body[..k]))
  }

  /** `t` without one leading sign character. */
  function SignFree(t: string): string {
    if |t| > 0 && (t[0] == '-' || t[0] == '+') then t[1..] else t
  }

  lemma {:induction false} DecimalValueOfNatToString(n: nat)
    ensures forall i :: 0 <= i < |NatToString(n)| ==> IsDigit(NatToString(n)[i])
    ensures DecimalValue(NatToString(n)) == n
  {
    if n >= 10 {
      DecimalValueOfNatToString(n / 10);
      var s := NatToString(n);
      assert s[..|s| - 1] == NatToString(n / 10);
    }
  }

  lemma {:induction false} AllDigitsLead(s: string)
    requires forall i :: 0 <= i < |s| ==> IsDigit(s[i])
    ensures LeadingDigits(s) == |s|
  {
    if |s| > 0 {
      AllDigitsLead(s[1..]);
    }
  }

  lemma NothingToTrim(s: string)
    requires |s| > 0 && !IsWhitespace(s[0])
    ensures TrimStart(s) == s
  {
  }

  lemma NoSign(s: string)
    requires |s| > 0 && IsDigit(s[0])
    ensures SignFree(s) == s
  {
  }

  lemma {:induction false} ParseUnsignedOfDigits(s: string)
    requires forall i :: 0 <= i < |s| ==> IsDigit(s[i])
    requires |s| > 0
    ensures ParseUnsigned(s) == Some(DecimalValue(s))
  {
    AllDigitsLead(s);
    assert s[..|s|] == s;
  }

  /** A non-empty string of digits parses to its decimal value. */
  lemma ParseIntOfDigits(s: string)
    requires |s| > 0
    requires forall i :: 0 <= i < |s| ==> IsDigit(s[i])
    ensures ParseInt(s) == Some(DecimalValue(s))
  {
    assert !IsWhitespace(s[0]) by { assert IsDigit(s[0]); }
    NothingToTrim(s);
    NoSign(s);
    ParseUnsignedOfDigits(s);
    assert ParseInt(s) == ParseSigned(s);
    assert s[0] != '-';
  }

  /** Leading whitespace is skipped up to the first other character. */
  lemma {:induction false} TrimWhitespace(ws: string, t: string)
    requires forall i :: 0 <= i < |ws| ==> IsWhitespace(ws[i])
    requires |t| > 0 && !IsWhitespace(t[0])
    ensures TrimStart(ws + t) == t
    decreases |ws|
  {
    if |ws| == 0 {
      assert ws + t == t;
      NothingToTrim(t);
    } else {
      assert (ws + t)[0] == ws[0];
      assert (ws + t)[1..] == ws[1..] + t;
      TrimWhitespace(ws[1..], t);
    }
  }

  /** The digits counted at the start stop at the first non-digit. */
  lemma {:induction false} DigitsThenStop(ds: string, rest: string)
    requires forall i :: 0 <= i < |ds| ==> IsDigit(ds[i])
    requires |rest| == 0 || !IsDigit(rest[0])
    ensures LeadingDigits(ds + rest) == |ds|
    decreases |ds|
  {
    if |ds| == 0 {
      assert ds + rest == rest;
    } else {
      assert (ds + rest)[0] == ds[0];
      assert (ds + rest)[1..] == ds[1..] + rest;
      DigitsThenStop(ds[1..], rest);
    }
  }

  lemma SignOrDigitIsNotWhitespace(c: char)
    requires c == '-' || c == '+' || IsDigit(c)
    ensures !IsWhitespace(c)
  {
  }

  /** At most one sign character. */
  predicate IsSign(sign: string) {
    |sign| <= 1 && forall i :: 0 <= i < |sign| ==> sign[i] == '-' || sign[i] == '+'
  }

  /** A minus sign. */
  predicate IsMinus(sign: string) {
    |sign| == 1 && sign[0] == '-'
  }

  /** The sign of `t` decides the sign of the unsigned value that follows it. */
  lemma ParseSignedValue(t: string, m: nat)
    requires ParseUnsigned(SignFree(t)) == Some(m)
    ensures var v: int := m; ParseSigned(t) == Some(if |t| > 0 && t[0] == '-' then -v else v)
  {
  }

  /** Dropping the sign of `sign + ds` leaves `ds` when `ds` starts with a digit. */
  lemma {:induction false} SignFreeOf(t: string, sign: string, body: string)
    requires IsSign(sign) && |body| > 0 && IsDigit(body[0])
    requires t == sign + body
    ensures SignFree(t) == body
    ensures (|t| > 0 && t[0] == '-') <==> IsMinus(sign)
    ensures |t| > 0 && (t[0] == '-' || t[0] == '+' || IsDigit(t[0]))
  {
    if |sign| == 0 {
      assert t == body;
    } else {
      assert t[0] == sign[0];
      assert t[1..] == body;
    }
  }

  /** Digits, then anything that does not start with a digit. */
  lemma ParseUnsignedOfDigitsThen(ds: string, rest: string)
    requires |ds| > 0 && forall i :: 0 <= i < |ds| ==> IsDigit(ds[i])
    requires |rest| == 0 || !IsDigit(rest[0])
    ensures ParseUnsigned(ds + rest) == Some(DecimalValue(ds))
  {
    DigitsThenStop(ds, rest);
    assert (ds + rest)[..|ds|] == ds;
  }

  /** An optional sign, digits, then anything that does not start with a digit. */
  lemma ParseSignedDigits(t: string, sign: string, ds: string, rest: string)
    requires IsSign(sign)
    requires |ds| > 0 && forall i :: 0 <= i < |ds| ==> IsDigit(ds[i])
    requires |rest| == 0 || !IsDigit(rest[0])
    requires t == sign + (ds + rest)
    ensures var v: int := DecimalValue(ds);
      ParseSigned(t) == Some(if IsMinus(sign) then -v else v)
  {
    assert (ds + rest)[0] == ds[0];
    SignFreeOf(t, sign, ds + rest);
    ParseUnsignedOfDigitsThen(ds, rest);
    ParseSignedValue(t, DecimalValue(ds));
  }

  /** `parseInt` of whitespace, an optional sign, digits and then anything
      that does not start with a digit ("-5", " 12px", "1.5") is the signed
      value of those digits. */
  lemma ParseIntOfSignedDigits(ws: string, sign: string, ds: string, rest: string)
    requires forall i :: 0 <= i < |ws| ==> IsWhitespace(ws[i])
    requires IsSign(sign)
    requires |ds| > 0 && forall i :: 0 <= i < |ds| ==> IsDigit(ds[i])
    requires |rest| == 0 || !IsDigit(rest[0])
    ensures var v: int := DecimalValue(ds);
      ParseInt(ws + (sign + (ds + rest))) == Some(if IsMinus(sign) then -v else v)
  {
    var t := sign + (ds + rest);
    assert (ds + rest)[0] == ds[0];
    SignFreeOf(t, sign, ds + rest);
    SignOrDigitIsNotWhitespace(t[0]);
    ParseSignedDigits(t, sign, ds, rest);
    ParseAfterWhitespace(ws, t);
  }

  /** `parseInt` skips the leading whitespace and reads the rest. */
  lemma ParseAfterWhitespace(ws: string, t: string)
    requires forall i :: 0 <= i < |ws| ==> IsWhitespace(ws[i])
    requires |t| > 0 && !IsWhitespace(t[0])
    ensures ParseInt(ws + t) == ParseSigned(t)
  {
    TrimWhitespace(ws, t);
  }

  /** Reading back a printed non-negative integer gives it back. */
  lemma ParseIntOfNatToString(n: nat)
    ensures ParseInt(NatToString(n)) == Some(n)
  {
    DecimalValueOfNatToString(n);
    ParseIntOfDigits(NatToString(n));
  }
}
