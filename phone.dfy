/** The phone check of the edit form, `validatePhone`: the empty string is
    accepted; anything else has every white-space character removed and must
    then match `^\(?\d{2}\)?[\s-]?\d{4,5}[\s-]?\d{4}$`. */
module Phone {
  import opened JsText

  /** `[\s-]`: a white-space character or a hyphen. */
  predicate IsSeparator(c: char)
  {
    c == '-' || IsWhitespace(c)
  }

  // ---------------------------------------------------------------------
  // The language of the pattern, piece by piece (the reference definition).

  predicate OptionalChar(p: string, c: char)
  {
    p == [] || p == [c]
  }

  predicate OptionalSeparator(p: string)
  {
    p == [] || (|p| == 1 && IsSeparator(p[0]))
  }

  predicate Digits(p: string, lo: nat, hi: nat)
  {
    lo <= |p| <= hi && AllDigits(p)
  }

  /** `t` splits into the seven pieces of the pattern: `\(?`, `\d{2}`, `\)?`,
      `[\s-]?`, `\d{4,5}`, `[\s-]?`, `\d{4}`. */
  predicate Pieces(t: string, open: string, area: string, close: string, sep1: string,
                   first: string, sep2: string, last: string)
  {
    && OptionalChar(open, '(') && Digits(area, 2, 2) && OptionalChar(close, ')')
    && OptionalSeparator(sep1) && Digits(first, 4, 5) && OptionalSeparator(sep2)
    && Digits(last, 4, 4)
    && t == open + (area + (close + (sep1 + (first + (sep2 + last)))))
  }

  /** The regular expression matches the whole of `t`. */
  ghost predicate MatchesPattern(t: string)
  {
    exists open, area, close, sep1, first, sep2, last ::
      Pieces(t, open, area, close, sep1, first, sep2, last)
  }

  // ---------------------------------------------------------------------
  // The recogniser.

  /** Drop `c` when `t` starts with it. */
  function SkipChar(t: string, c: char): string
  {
    if t != [] && t[0] == c then t[1..] else t
  }

  /** Drop a leading separator, if there is one. */
  function SkipSeparator(t: string): string
  {
    if t != [] && IsSeparator(t[0]) then t[1..] else t
  }

  /** `\d{4,5}[\s-]?\d{4}`: eight or nine digits, or four or five digits, a
      separator and four digits. */
  predicate Subscriber(d: string)
  {
    || (AllDigits(d) && (|d| == 8 || |d| == 9))
    || ((|d| == 9 || |d| == 10) && IsSeparator(d[|d| - 5])
        && AllDigits(d[..|d| - 5]) && AllDigits(d[|d| - 4..]))
  }

  /** What follows the area code: `\)?[\s-]?` and the subscriber number. */
  predicate AfterArea(b: string)
  {
    Subscriber(SkipSeparator(SkipChar(b, ')')))
  }

  /** The whole pattern, read left to right. The optional pieces never compete
      with the digits after them, so each is taken exactly when present. */
  predicate Recognise(t: string)
  {
    var a := SkipChar(t, '(');
    |a| >= 2 && IsDigit(a[0]) && IsDigit(a[1]) && AfterArea(a[2..])
  }

  /** `validatePhone`. */
  predicate ValidatePhone(phone: string)
  {
    phone == [] || Recognise(RemoveWhitespace(phone))
  }

  // ---------------------------------------------------------------------
  // The recogniser decides the pattern, layer by layer.

  lemma DigitIsNoSeparator(c: char)
    requires IsDigit(c)
    ensures !IsSeparator(c) && c != '(' && c != ')'
  {
  }

  lemma AllDigitsAppend(x: string, y: string)
    requires AllDigits(x) && AllDigits(y)
    ensures AllDigits(x + y)
  {
    forall k | 0 <= k < |x + y| ensures IsDigit((x + y)[k]) {
      if k < |x| { assert (x + y)[k] == x[k]; } else { assert (x + y)[k] == y[k - |x|]; }
    }
  }

  predicate SubscriberPieces(d: string, first: string, sep2: string, last: string)
  {
    Digits(first, 4, 5) && OptionalSeparator(sep2) && Digits(last, 4, 4) && d == first + (sep2 + last)
  }

  lemma SubscriberSound(d: string) returns (first: string, sep2: string, last: string)
    requires Subscriber(d)
    ensures SubscriberPieces(d, first, sep2, last)
  {
    if AllDigits(d) && (|d| == 8 || |d| == 9) {
      first, sep2, last := d[..|d| - 4], [], d[|d| - 4..];
    } else {
      first, sep2, last := d[..|d| - 5], [d[|d| - 5]], d[|d| - 4..];
    }
    assert d == first + (sep2 + last);
  }

  lemma SubscriberComplete(d: string, first: string, sep2: string, last: string)
    requires SubscriberPieces(d, first, sep2, last)
    ensures Subscriber(d) && IsDigit(d[0])
  {
    assert d[0] == first[0];
    if sep2 == [] {
      assert d == first + last;
      AllDigitsAppend(first, last);
    } else {
      assert d[|d| - 5] == sep2[0];
      assert d[..|d| - 5] == first;
      assert d[|d| - 4..] == last;
    }
  }

  lemma AfterAreaSound(b: string) returns (close: string, sep1: string, d: string)
    requires AfterArea(b)
    ensures OptionalChar(close, ')') && OptionalSeparator(sep1) && Subscriber(d)
    ensures b == close + (sep1 + d)
  {
    close := if b != [] && b[0] == ')' then [b[0]] else [];
    var c := SkipChar(b, ')');
    assert b == close + c;
    sep1 := if c != [] && IsSeparator(c[0]) then [c[0]] else [];
    d := SkipSeparator(c);
    assert c == sep1 + d;
  }

  lemma AfterAreaComplete(b: string, close: string, sep1: string, d: string)
    requires OptionalChar(close, ')') && OptionalSeparator(sep1)
    requires Subscriber(d) && d != [] && IsDigit(d[0])
    requires b == close + (sep1 + d)
    ensures AfterArea(b)
  {
    var c := sep1 + d;
    DigitIsNoSeparator(d[0]);
    assert SkipSeparator(c) == d by {
      if sep1 == [] { assert c == d; } else { assert c[1..] == d; }
    }
    assert SkipChar(b, ')') == c by {
      if close == [] {
        assert b == c;
        if sep1 == [] { assert b[0] == d[0]; } else { assert b[0] == sep1[0]; }
      } else {
        assert b[1..] == c;
      }
    }
  }

  lemma RecogniseSound(t: string)
    requires Recognise(t)
    ensures MatchesPattern(t)
  {
    var open := if t != [] && t[0] == '(' then [t[0]] else [];
    var a := SkipChar(t, '(');
    assert t == open + a;
    var area := a[..2];
    assert a == area + a[2..];
    var close, sep1, d := AfterAreaSound(a[2..]);
    var first, sep2, last := SubscriberSound(d);
    assert AllDigits(area) by {
      assert area[0] == a[0] && area[1] == a[1];
    }
    assert Pieces(t, open, area, close, sep1, first, sep2, last);
  }

  lemma RecogniseComplete(t: string, open: string, area: string, close: string, sep1: string,
                          first: string, sep2: string, last: string)
    requires Pieces(t, open, area, close, sep1, first, sep2, last)
    ensures Recognise(t)
  {
    var d := first + (sep2 + last);
    SubscriberComplete(d, first, sep2, last);
    var b := close + (sep1 + d);
    AfterAreaComplete(b, close, sep1, d);
    var a := area + b;
    assert t == open + a;
    DigitIsNoSeparator(area[0]);
    assert SkipChar(t, '(') == a by {
      if open == [] { assert t == a && t[0] == area[0]; } else { assert t[1..] == a; }
    }
    assert a[0] == area[0] && a[1] == area[1];
    assert a[2..] == b;
  }

  /** The hand-written recogniser accepts exactly the strings the regular
      expression matches. */
  lemma RecogniseIffPattern(t: string)
    ensures Recognise(t) <==> MatchesPattern(t)
  {
    if Recognise(t) {
      RecogniseSound(t);
    }
    if MatchesPattern(t) {
      var open, area, close, sep1, first, sep2, last :|
        Pieces(t, open, area, close, sep1, first, sep2, last);
      RecogniseComplete(t, open, area, close, sep1, first, sep2, last);
    }
  }

  /** `validatePhone` accepts the empty string, and a non-empty string exactly
      when the pattern matches it after white space is removed. */
  lemma ValidatePhoneMeaning(phone: string)
    ensures ValidatePhone(phone) <==> phone == [] || MatchesPattern(RemoveWhitespace(phone))
  {
    RecogniseIffPattern(RemoveWhitespace(phone));
  }

  // ---------------------------------------------------------------------
  // Digit counts.

  function DigitCount(s: string): nat
  {
    if s == [] then 0 else (if IsDigit(s[0]) then 1 else 0) + DigitCount(s[1..])
  }

  lemma {:induction false} DigitCountAppend(a: string, b: string)
    ensures DigitCount(a + b) == DigitCount(a) + DigitCount(b)
  {
    if a == [] {
      assert a + b == b;
    } else {
      assert (a + b)[0] == a[0];
      assert (a + b)[1..] == a[1..] + b;
      DigitCountAppend(a[1..], b);
    }
  }

  lemma {:induction false} DigitCountAll(s: string)
    requires AllDigits(s)
    ensures DigitCount(s) == |s|
  {
    if s != [] {
      DigitCountAll(s[1..]);
    }
  }

  lemma {:induction false} DigitCountRemoveWhitespace(s: string)
    ensures DigitCount(RemoveWhitespace(s)) == DigitCount(s)
  {
    if s != [] {
      DigitCountRemoveWhitespace(s[1..]);
      if !IsWhitespace(s[0]) {
        DigitCountAppend([s[0]], RemoveWhitespace(s[1..]));
      }
    }
  }

  /** An optional punctuation piece holds no digit. */
  lemma NoDigitsIn(p: string)
    requires |p| <= 1 && (p == [] || !IsDigit(p[0]))
    ensures DigitCount(p) == 0
  {
    if p != [] {
      assert p[1..] == [];
    }
  }

  /** `\d{4,5}[\s-]?\d{4}` holds 8 or 9 digits. */
  lemma SubscriberDigitCount(first: string, sep2: string, last: string)
    requires Digits(first, 4, 5) && OptionalSeparator(sep2) && Digits(last, 4, 4)
    ensures DigitCount(first + (sep2 + last)) == |first| + 4
  {
    if sep2 != [] {
      assert !IsDigit(sep2[0]);
    }
    NoDigitsIn(sep2);
    DigitCountAppend(sep2, last);
    DigitCountAppend(first, sep2 + last);
    DigitCountAll(first);
    DigitCountAll(last);
  }

  /** `\)?[\s-]?` adds no digit in front of the subscriber number. */
  lemma AfterAreaDigitCount(close: string, sep1: string, d: string)
    requires OptionalChar(close, ')') && OptionalSeparator(sep1)
    ensures DigitCount(close + (sep1 + d)) == DigitCount(d)
  {
    if sep1 != [] {
      assert !IsDigit(sep1[0]);
    }
    NoDigitsIn(close);
    NoDigitsIn(sep1);
    DigitCountAppend(sep1, d);
    DigitCountAppend(close, sep1 + d);
  }

  /** A string the pattern matches has 10 or 11 digits. */
  lemma PatternDigitCount(t: string)
    requires MatchesPattern(t)
    ensures DigitCount(t) == 10 || DigitCount(t) == 11
  {
    var open, area, close, sep1, first, sep2, last :|
      Pieces(t, open, area, close, sep1, first, sep2, last);
    var d := first + (sep2 + last);
    SubscriberDigitCount(first, sep2, last);
    var b := close + (sep1 + d);
    AfterAreaDigitCount(close, sep1, d);
    DigitCountAppend(area, b);
    DigitCountAll(area);
    NoDigitsIn(open);
    DigitCountAppend(open, area + b);
  }

  /** Every non-empty phone that `validatePhone` accepts has 10 or 11 digits. */
  lemma AcceptedPhoneDigits(phone: string)
    requires phone != [] && ValidatePhone(phone)
    ensures DigitCount(phone) == 10 || DigitCount(phone) == 11
  {
    RecogniseSound(RemoveWhitespace(phone));
    PatternDigitCount(RemoveWhitespace(phone));
    DigitCountRemoveWhitespace(phone);
  }

  /** A non-empty phone made only of white space is rejected: it is not
      treated as empty. */
  lemma BlankPhoneRejected(phone: string)
    requires phone != [] && forall k :: 0 <= k < |phone| ==> IsWhitespace(phone[k])
    ensures !ValidatePhone(phone)
  {
    RemoveWhitespaceOfBlank(phone);
  }

  /** The usual mobile layout, `(11)98765-4321` once white space is gone, passes. */
  lemma MobileLayoutAccepted()
    ensures Recognise("(11)98765-4321")
  {
    var area, first, last := "11", "98765", "4321";
    assert AllDigits(area) && AllDigits(first) && AllDigits(last);
    assert "(11)98765-4321" == "(" + (area + (")" + ("" + (first + ("-" + last)))));
    RecogniseComplete("(11)98765-4321", "(", area, ")", "", first, "-", last);
  }
}
