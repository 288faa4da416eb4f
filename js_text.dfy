/** The JavaScript string and number built-ins the edit form relies on:
    the white-space set of `\s` and `trim`, `String.prototype.trim`,
    removing every `\s`, `parseInt` with no radix, `parseFloat`, and
    `Number.prototype.toString` on an integer. A result of `None` from a
    parser stands for `NaN`. */
module JsText {
  import opened Wrappers

  /** A number `parseInt` can give: an integer, or `NaN` as `None`. */
  type IntOrNaN = Option<int>

  /** ECMAScript WhiteSpace and LineTerminator code points: what `\s`
      matches and what `trim` removes. */
  predicate IsWhitespace(c: char)
  {
    var n := c as int;
    n == 0x09 || n == 0x0A || n == 0x0B || n == 0x0C || n == 0x0D || n == 0x20
    || n == 0xA0 || n == 0x1680 || (0x2000 <= n <= 0x200A) || n == 0x2028 || n == 0x2029
    || n == 0x202F || n == 0x205F || n == 0x3000 || n == 0xFEFF
  }

  predicate IsDigit(c: char)
  {
    '0' <= c <= '9'
  }

  predicate AllDigits(s: string)
  {
    forall k :: 0 <= k < |s| ==> IsDigit(s[k])
  }

  /** Drop the leading white space (the first step of `trim`, `parseInt`
      and `parseFloat`). */
  function TrimStart(s: string): (r: string)
    ensures |r| <= |s|
  {
    if s != [] && IsWhitespace(s[0]) then TrimStart(s[1..]) else s
  }

  /** What `TrimStart` keeps is a suffix that does not start with white
      space, and what it drops is all white space. */
  lemma {:induction false} TrimStartIsSuffix(s: string)
    ensures var r := TrimStart(s);
            && r == s[|s| - |r|..]
            && (r == [] || !IsWhitespace(r[0]))
            && forall k :: 0 <= k < |s| - |r| ==> IsWhitespace(s[k])
  {
    if s != [] && IsWhitespace(s[0]) {
      TrimStartIsSuffix(s[1..]);
    }
  }

  /** Drop the trailing white space. */
  function TrimEnd(s: string): (r: string)
    ensures |r| <= |s|
  {
    if s != [] && IsWhitespace(s[|s| - 1]) then TrimEnd(s[..|s| - 1]) else s
  }

  /** What `TrimEnd` keeps is a prefix that does not end with white space,
      and what it drops is all white space. */
  lemma {:induction false} TrimEndIsPrefix(s: string)
    ensures var r := TrimEnd(s);
            && r == s[..|r|]
            && (r == [] || !IsWhitespace(r[|r| - 1]))
            && forall k :: |r| <= k < |s| ==> IsWhitespace(s[k])
  {
    if s != [] && IsWhitespace(s[|s| - 1]) {
      TrimEndIsPrefix(s[..|s| - 1]);
    }
  }

  /** `String.prototype.trim`. */
  function Trim(s: string): string
  {
    TrimEnd(TrimStart(s))
  }

  /** `trim` returns the infix of its input that starts and ends with a
      non-white-space character, and everything it cuts off is white space. */
  lemma TrimIsInfix(s: string)
    ensures var r, i := Trim(s), |s| - |TrimStart(s)|;
            0 <= i <= i + |r| <= |s| && r == s[i..i + |r|]
            && (forall k :: 0 <= k < i ==> IsWhitespace(s[k]))
            && (forall k :: i + |r| <= k < |s| ==> IsWhitespace(s[k]))
            && (r == [] || (!IsWhitespace(r[0]) && !IsWhitespace(r[|r| - 1])))
  {
    var t := TrimStart(s);
    var r := TrimEnd(t);
    var i := |s| - |t|;
    TrimStartIsSuffix(s);
    TrimEndIsPrefix(t);
    assert r == t[..|r|];
    assert r == s[i..i + |r|];
    forall k | i + |r| <= k < |s| ensures IsWhitespace(s[k]) {
      assert s[k] == t[k - i];
    }
    if r != [] {
      assert r[0] == t[0];
    }
  }

  /** `trim` yields the empty string exactly for an all-white-space input. */
  lemma TrimEmptyIff(s: string)
    ensures Trim(s) == [] <==> forall k :: 0 <= k < |s| ==> IsWhitespace(s[k])
  {
    TrimIsInfix(s);
    var r, i := Trim(s), |s| - |TrimStart(s)|;
    if r != [] {
      assert s[i] == r[0];
    }
  }

  /** `trim` is idempotent. */
  lemma TrimIdempotent(s: string)
    ensures Trim(Trim(s)) == Trim(s)
  {
    var r := Trim(s);
    TrimIsInfix(s);
    assert TrimStart(r) == r;
    assert TrimEnd(r) == r;
  }

  /** `s.replace(/\s/g, "")`: every white-space character removed. */
  function RemoveWhitespace(s: string): (r: string)
    ensures |r| <= |s|
    ensures forall k :: 0 <= k < |r| ==> !IsWhitespace(r[k])
  {
    if s == [] then []
    else if IsWhitespace(s[0]) then RemoveWhitespace(s[1..])
    else [s[0]] + RemoveWhitespace(s[1..])
  }

  /** Removing white space works piece by piece, so it keeps every other
      character in its order. */
  lemma {:induction false} RemoveWhitespaceAppend(a: string, b: string)
    ensures RemoveWhitespace(a + b) == RemoveWhitespace(a) + RemoveWhitespace(b)
  {
    if a == [] {
      assert a + b == b;
    } else {
      assert (a + b)[0] == a[0];
      assert (a + b)[1..] == a[1..] + b;
      RemoveWhitespaceAppend(a[1..], b);
    }
  }

  /** A string without white space is left as it is; hence the removal is idempotent. */
  lemma {:induction false} RemoveWhitespaceKeepsClean(s: string)
    requires forall k :: 0 <= k < |s| ==> !IsWhitespace(s[k])
    ensures RemoveWhitespace(s) == s
  {
    if s != [] {
      RemoveWhitespaceKeepsClean(s[1..]);
    }
  }

  /** A string made only of white space is removed entirely. */
  lemma {:induction false} RemoveWhitespaceOfBlank(s: string)
    requires forall k :: 0 <= k < |s| ==> IsWhitespace(s[k])
    ensures RemoveWhitespace(s) == []
  {
    if s != [] {
      RemoveWhitespaceOfBlank(s[1..]);
    }
  }

  /** Trimming first does not change what is left once every white-space
      character is removed. */
  lemma RemoveWhitespaceOfTrim(s: string)
    ensures RemoveWhitespace(Trim(s)) == RemoveWhitespace(s)
  {
    TrimIsInfix(s);
    var r, i := Trim(s), |s| - |TrimStart(s)|;
    var head, tail := s[..i], s[i + |r|..];
    assert s == head + (r + tail);
    forall k | 0 <= k < |head| ensures IsWhitespace(head[k]) {
      assert head[k] == s[k];
    }
    forall k | 0 <= k < |tail| ensures IsWhitespace(tail[k]) {
      assert tail[k] == s[i + |r| + k];
    }
    RemoveWhitespaceOfBlank(head);
    RemoveWhitespaceOfBlank(tail);
    RemoveWhitespaceAppend(head, r + tail);
    RemoveWhitespaceAppend(r, tail);
    assert RemoveWhitespace(s) == RemoveWhitespace(r) + [];
  }

  /** The value of a decimal digit, or of a hexadecimal one for radix 16. */
  function DigitValue(c: char): (v: nat)
    ensures IsDigit(c) ==> v == (c as int) - ('0' as int)
    ensures v < 16
  {
    if IsDigit(c) then (c as int) - ('0' as int)
    else if 'a' <= c <= 'f' then (c as int) - ('a' as int) + 10
    else if 'A' <= c <= 'F' then (c as int) - ('A' as int) + 10
    else 0
  }

  predicate IsRadixDigit(c: char, radix: nat)
  {
    if radix == 16 then IsDigit(c) || 'a' <= c <= 'f' || 'A' <= c <= 'F' else IsDigit(c)
  }

  /** The length of the longest prefix of radix digits. */
  function DigitRun(s: string, radix: nat): (n: nat)
    ensures n <= |s|
    ensures forall k :: 0 <= k < n ==> IsRadixDigit(s[k], radix)
    ensures n == |s| || !IsRadixDigit(s[n], radix)
  {
    if s != [] && IsRadixDigit(s[0], radix) then 1 + DigitRun(s[1..], radix) else 0
  }

  /** The number a digit string denotes, most significant digit first. */
  function ValueOf(ds: string, radix: nat): nat
  {
    if ds == [] then 0 else ValueOf(ds[..|ds| - 1], radix) * radix + DigitValue(ds[|ds| - 1])
  }

  /** A leading sign: whether it is `-`, and what follows it. */
  function SplitSign(t: string): (r: (bool, string))
    ensures r.0 <==> t != [] && t[0] == '-'
    ensures r.1 == if t != [] && (t[0] == '-' || t[0] == '+') then t[1..] else t
  {
    if t != [] && (t[0] == '-' || t[0] == '+') then (t[0] == '-', t[1..]) else (false, t)
  }

  /** A run of digits covers an all-digit string. */
  lemma {:induction false} DigitRunOfDigits(d: string)
    requires AllDigits(d)
    ensures DigitRun(d, 10) == |d|
  {
    if d != [] {
      DigitRunOfDigits(d[1..]);
    }
  }

  /** The unsigned part of `parseInt`: a `0x`/`0X` prefix selects radix 16,
      then the longest run of digits is read. */
  function ParseUnsignedInt(u: string): Option<nat>
  {
    if |u| >= 2 && u[0] == '0' && (u[1] == 'x' || u[1] == 'X') then ReadDigits(u[2..], 16)
    else ReadDigits(u, 10)
  }

  /** The value of the longest prefix of radix digits; `None` when there is
      no digit at all. */
  function ReadDigits(v: string, radix: nat): Option<nat>
  {
    var n := DigitRun(v, radix);
    if n == 0 then None else Some(ValueOf(v[..n], radix))
  }

  /** `parseInt(s)` with no radix: skip leading white space, read an optional
      sign, then the unsigned part; `NaN` (here `None`) when no digit follows. */
  function ParseInt(s: string): IntOrNaN
  {
    var sign := SplitSign(TrimStart(s));
    var m := ParseUnsignedInt(sign.1);
    if m.None? then None
    else
      var v: int := m.value;
      Some(if sign.0 then -v else v)
  }

  function DigitChar(d: nat): (c: char)
    requires d < 10
    ensures IsDigit(c) && DigitValue(c) == d
  {
    ('0' as int + d) as char
  }

  /** The decimal digits of a natural number, without leading zeros. */
  function NatText(n: nat): (r: string)
    ensures r != [] && AllDigits(r)
    ensures |r| > 1 ==> r[0] != '0'
    decreases n
  {
    if n < 10 then [DigitChar(n)] else NatText(n / 10) + [DigitChar(n % 10)]
  }

  /** `Number.prototype.toString` on an integer: its decimal digits, with a
      minus sign when it is negative. */
  function IntText(n: int): string
  {
    if n < 0 then "-" + NatText(-n) else NatText(n)
  }

  lemma {:induction false} NatTextValue(n: nat)
    ensures ValueOf(NatText(n), 10) == n
    ensures DigitRun(NatText(n), 10) == |NatText(n)|
    decreases n
  {
    var r := NatText(n);
    if n >= 10 {
      NatTextValue(n / 10);
      assert r[..|r| - 1] == NatText(n / 10);
    }
  }

  /** `parseInt` reads back what `toString` writes for an integer: the round
      trip the edit form relies on when it pre-fills the age and parses it on save. */
  lemma ParseIntOfIntText(n: int)
    ensures ParseInt(IntText(n)) == Some(n)
  {
    var m: nat := if n < 0 then -n else n;
    var d := NatText(m);
    NatTextValue(m);
    DigitRunOfDigits(d);
    assert d[..|d|] == d;
    assert !(|d| >= 2 && d[0] == '0');
    assert ParseUnsignedInt(d) == Some(m);
    var t := IntText(n);
    assert !IsWhitespace(t[0]);
    assert TrimStart(t) == t;
    if n < 0 {
      assert t[1..] == d;
      assert SplitSign(t) == (true, d);
    } else {
      assert SplitSign(t) == (false, d);
    }
  }

  /** A leading `-` negates what the unsigned text parses to, and a leading
      `+` changes nothing; either way no digit after the sign means `NaN`. */
  lemma ParseIntSign(d: string)
    requires d != [] && !IsWhitespace(d[0]) && d[0] != '-' && d[0] != '+'
    ensures ParseInt("-" + d) == if ParseInt(d).Some? then Some(-ParseInt(d).value) else None
    ensures ParseInt("+" + d) == ParseInt(d)
  {
    assert TrimStart(d) == d;
    assert SplitSign(d) == (false, d);
    var neg, pos := "-" + d, "+" + d;
    assert TrimStart(neg) == neg && TrimStart(pos) == pos;
    assert neg[1..] == d && pos[1..] == d;
    assert SplitSign(neg) == (true, d);
    assert SplitSign(pos) == (false, d);
  }

  /** `m` times 10 to the power `e`, one factor of ten at a time. */
  function Shift(m: real, e: int): (r: real)
    requires m >= 0.0
    ensures r >= 0.0
    decreases if e < 0 then -e else e
  {
    if e == 0 then m
    else if e > 0 then Shift(m * 10.0, e - 1)
    else Shift(m / 10.0, e + 1)
  }

  /** An exponent part `e`/`E`, optional sign, at least one digit, at the start
      of `s`: its value, or `None` when there is none (then it is not read). */
  function Exponent(s: string): Option<int>
  {
    if |s| >= 2 && (s[0] == 'e' || s[0] == 'E') then
      var sign := SplitSign(s[1..]);
      var n := DigitRun(sign.1, 10);
      if n == 0 then None
      else
        var v: int := ValueOf(sign.1[..n], 10);
        Some(if sign.0 then -v else v)
    else None
  }

  /** The unsigned part of `parseFloat`: integer digits, an optional `.` and
      fraction digits (at least one digit in all), an optional exponent. */
  function ParseUnsignedDecimal(u: string): (r: Option<real>)
    ensures r.Some? ==> r.value >= 0.0
  {
    var i := DigitRun(u, 10);
    var rest := u[i..];
    var point := rest != [] && rest[0] == '.';
    var f := if point then DigitRun(rest[1..], 10) else 0;
    if i == 0 && f == 0 then None
    else
      var fraction := if point then rest[1..1 + f] else [];
      var after := if point then rest[1 + f..] else rest;
      var e := match Exponent(after) case Some(x) => x case None => 0;
      Some(DecimalValue(u[..i], fraction, e))
  }

  /** The number `<whole>.<fraction>e<e>` denotes: the digits read as one
      integer, shifted by the exponent less the number of fraction digits. */
  function DecimalValue(whole: string, fraction: string, e: int): (r: real)
    ensures r >= 0.0
  {
    Shift(ValueOf(whole + fraction, 10) as real, e - |fraction|)
  }

  /** `parseFloat(s)`: skip leading white space, read an optional sign, then
      the longest decimal literal; `NaN` (here `None`) when there is none. */
  function ParseFloat(s: string): Option<real>
  {
    var sign := SplitSign(TrimStart(s));
    var m := ParseUnsignedDecimal(sign.1);
    if m.None? then None else Some(if sign.0 then -m.value else m.value)
  }

  /** `parseFloat` yields a negative number only when the first non-blank
      character is a minus sign. */
  lemma ParseFloatNegativeNeedsMinus(s: string)
    requires ParseFloat(s).Some? && ParseFloat(s).value < 0.0
    ensures TrimStart(s) != [] && TrimStart(s)[0] == '-'
  {
  }

  /** A plain digit string reads as its own integer value. */
  lemma ParseFloatOfDigits(s: string)
    requires AllDigits(s) && s != []
    ensures ParseFloat(s) == Some(ValueOf(s, 10) as real)
  {
    assert !IsWhitespace(s[0]);
    assert TrimStart(s) == s;
    assert SplitSign(s) == (false, s);
    DigitRunOfDigits(s);
    assert s[..|s|] == s;
    assert s[|s|..] == [];
    assert Exponent([]) == None;
    assert s + [] == s;
    assert DecimalValue(s, [], 0) == ValueOf(s, 10) as real;
    assert ParseUnsignedDecimal(s) == Some(DecimalValue(s, [], 0));
  }
}
