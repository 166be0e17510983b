/**
  Python's conversions between `int` and decimal text: `str(n)` (and the
  `{n}` of an f-string) and `int(s)`.
 */
module PyInt {
  import opened Wrappers
  import opened PyText

  predicate IsDigit(c: char) {
    '0' <= c <= '9'
  }

  predicate AllDigits(s: string) {
    forall k :: 0 <= k < |s| ==> IsDigit(s[k])
  }

  /** The value of a string of ASCII decimal digits, most significant first (leading zeros allowed). */
  function DigitsValue(ds: string): nat
    requires AllDigits(ds)
    decreases |ds|
  {
    if |ds| == 0 then 0 else 10 * DigitsValue(ds[..|ds| - 1]) + ((ds[|ds| - 1] as int) - ('0' as int))
  }

  /** The decimal digits of `n`, without leading zeros. */
  function NatToDigits(n: nat): (ds: string)
    ensures |ds| >= 1 && AllDigits(ds)
    decreases n
  {
    var last := [(('0' as int) + n % 10) as char];
    if n < 10 then last else NatToDigits(n / 10) + last
  }

  lemma {:induction false} DigitsRoundTrip(n: nat)
    ensures DigitsValue(NatToDigits(n)) == n
    decreases n
  {
    var ds := NatToDigits(n);
    if n >= 10 {
      DigitsRoundTrip(n / 10);
      assert ds[..|ds| - 1] == NatToDigits(n / 10);
    }
  }

  /** `str(n)`: an optional minus sign followed by the digits of |n|. */
  function IntToString(n: int): (s: string)
    ensures |s| >= 1 && (AllDigits(s) || (s[0] == '-' && AllDigits(s[1..])))
  {
    if n < 0 then "-" + NatToDigits(-n) else NatToDigits(n)
  }

  /** The text `int()` reads its sign and digits from: `s` without surrounding `int()` whitespace. */
  function IntText(s: string): (t: string)
    ensures |t| == 0 || (!IsBlank(IntBlanks, t[0]) && !IsBlank(IntBlanks, t[|t| - 1]))
  {
    RStrip(LStrip(s, IntBlanks), IntBlanks)
  }

  /**
    `int(s)` for a text without `_`: surrounding whitespace is ignored, then
    an optional `+` or `-` sign and at least one decimal digit must make up
    the rest; anything else raises `ValueError`, modelled as None.
   */
  function ParseInt(s: string): (r: Option<int>)
    requires '_' !in s
  {
    ReadSigned(IntText(s))
  }

  /** An optional sign followed by at least one decimal digit, and nothing else. */
  function ReadSigned(t: string): Option<int> {
    if |t| > 0 && (t[0] == '+' || t[0] == '-') then
      if |t| > 1 && AllDigits(t[1..]) then
        var v: int := DigitsValue(t[1..]);
        Some(if t[0] == '-' then -v else v)
      else None
    else if |t| > 0 && AllDigits(t) then Some(DigitsValue(t))
    else None
  }

  /** Only `int()` whitespace around a number is ignored: it reads the number as if the whitespace were absent. */
  lemma ParseIntSurrounded(pre: string, t: string, post: string)
    requires '_' !in pre + t + post
    requires forall k :: 0 <= k < |pre| ==> IsBlank(IntBlanks, pre[k])
    requires forall k :: 0 <= k < |post| ==> IsBlank(IntBlanks, post[k])
    requires |t| > 0 && !IsBlank(IntBlanks, t[0]) && !IsBlank(IntBlanks, t[|t| - 1])
    ensures '_' !in t
    ensures ParseInt(pre + t + post) == ParseInt(t)
  {
    MiddleFree(pre, t, post, '_');
    IntTextSurrounded(pre, t, post);
    IntTextSurrounded("", t, "");
    assert "" + t + "" == t;
  }

  lemma MiddleFree(pre: string, t: string, post: string, c: char)
    requires c !in pre + t + post
    ensures c !in t
  {
    forall k | 0 <= k < |t| ensures t[k] != c {
      assert (pre + t + post)[|pre| + k] == t[k];
    }
  }

  /** Stripping `int()` whitespace from a padded text leaves the text. */
  lemma IntTextSurrounded(pre: string, t: string, post: string)
    requires forall k :: 0 <= k < |pre| ==> IsBlank(IntBlanks, pre[k])
    requires forall k :: 0 <= k < |post| ==> IsBlank(IntBlanks, post[k])
    requires |t| > 0 && !IsBlank(IntBlanks, t[0]) && !IsBlank(IntBlanks, t[|t| - 1])
    ensures IntText(pre + t + post) == t
  {
    assert pre + t + post == pre + (t + post);
    assert (t + post)[0] == t[0];
    LStripPrefix(pre, t + post, IntBlanks);
    RStripSuffix(t, post, IntBlanks);
  }

  /** A separator U+001C..U+001F before the digits makes `int()` raise. */
  lemma SeparatorRaises(c: char, digits: string)
    requires '\U{1c}' <= c <= '\U{1f}'
    requires |digits| > 0 && AllDigits(digits)
    ensures '_' !in [c] + digits
    ensures ParseInt([c] + digits) == None
  {
    var s := [c] + digits;
    SeparatorText(c, digits);
    UnsignedNondigit(s);
  }

  /** Such a separator is neither `_` nor `int()` whitespace, so it stays in the text `int()` reads. */
  lemma SeparatorText(c: char, digits: string)
    requires '\U{1c}' <= c <= '\U{1f}'
    requires |digits| > 0 && AllDigits(digits)
    ensures '_' !in [c] + digits && IntText([c] + digits) == [c] + digits
  {
    var s := [c] + digits;
    forall k | 0 <= k < |s| ensures s[k] != '_' {
      if k > 0 {
        assert s[k] == digits[k - 1];
      }
    }
    NotBlank(digits[|digits| - 1]);
    assert !IsBlank(IntBlanks, s[0]) && !IsBlank(IntBlanks, s[|s| - 1]);
    IntTextSurrounded("", s, "");
    assert "" + s + "" == s;
  }

  /** A text that starts with neither a sign nor a digit is not a number. */
  lemma UnsignedNondigit(t: string)
    requires |t| > 0 && !IsDigit(t[0]) && t[0] != '+' && t[0] != '-'
    ensures ReadSigned(t) == None
  {
  }

  /** `strip()` removes such a separator. */
  lemma SeparatorStripped(c: char, digits: string)
    requires '\U{1c}' <= c <= '\U{1f}'
    requires |digits| > 0 && AllDigits(digits)
    ensures Strip([c] + digits) == digits
  {
    NotBlank(digits[0]);
    NotBlank(digits[|digits| - 1]);
    LStripPrefix([c], digits, StrBlanks);
    RStripSuffix(digits, "", StrBlanks);
    assert digits + "" == digits;
  }

  /**
    A separator U+001C..U+001F before the digits makes `int()` raise, though
    `strip()`, and so the ledger and keyword code, treats it as whitespace.
   */
  lemma SeparatorNotSkipped(c: char, digits: string)
    requires '\U{1c}' <= c <= '\U{1f}'
    requires |digits| > 0 && AllDigits(digits)
    ensures '_' !in [c] + digits
    ensures ParseInt([c] + digits) == None && Strip([c] + digits) == digits
  {
    SeparatorRaises(c, digits);
    SeparatorStripped(c, digits);
  }

  /** The decimal text of a number contains neither separator the counter scan splits on. */
  lemma IntToStringSeparators(n: int)
    ensures '_' !in IntToString(n) && '.' !in IntToString(n)
  {
    var s := IntToString(n);
    forall k | 0 <= k < |s|
      ensures s[k] != '_' && s[k] != '.'
    {
      if k > 0 && !AllDigits(s) {
        assert s[1..][k - 1] == s[k];
      }
    }
  }

  /** Digits and signs are not whitespace. */
  lemma NotBlank(c: char)
    requires IsDigit(c) || c == '-' || c == '+'
    ensures !IsBlank(StrBlanks, c) && !IsBlank(IntBlanks, c)
  {
  }

  /** `int(str(n)) == n`. */
  lemma ParseIntToString(n: int)
    ensures '_' !in IntToString(n)
    ensures ParseInt(IntToString(n)) == Some(n)
  {
    IntToStringSeparators(n);
    var s := IntToString(n);
    NotBlank(s[0]);
    NotBlank(s[|s| - 1]);
    assert LStrip(s, IntBlanks) == s;
    assert RStrip(s, IntBlanks) == s;
    if n < 0 {
      DigitsRoundTrip(-n);
      assert s[1..] == NatToDigits(-n);
    } else {
      DigitsRoundTrip(n);
    }
  }
}
