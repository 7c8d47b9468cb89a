/**
 * The expiration-date field of the pricer form: the entry is stripped of
 * surrounding white space, must then be exactly eight decimal digits in
 * MMDDYYYY order, and is split into month, day and year.
 */
module Expiry {
  import opened Wrappers

  /** The date fields as read from the entry; calendar validity is not checked here. */
  datatype ExpiryDate = ExpiryDate(month: nat, day: nat, year: nat)

  // ---------------------------------------------------------------------------
  // `str.strip()`
  // ---------------------------------------------------------------------------

  /** The characters Python counts as white space (`str.isspace`), which an
      argument-less `str.strip()` removes: tab through carriage return, the
      four ASCII separators and space, and the Unicode spaces and line
      separators. */
  predicate IsSpace(c: char)
  {
    || '\t' <= c <= '\r'
    || '\U{001C}' <= c <= ' '
    || c == '\U{0085}' || c == '\U{00A0}' || c == '\U{1680}'
    || '\U{2000}' <= c <= '\U{200A}'
    || c == '\U{2028}' || c == '\U{2029}' || c == '\U{202F}' || c == '\U{205F}' || c == '\U{3000}'
  }

  /** The first position at or after `k` that is not white space (or `|s|`). */
  function SkipSpaceFrom(s: string, k: nat): (n: nat)
    requires k <= |s|
    ensures k <= n <= |s|
    ensures forall i :: k <= i < n ==> IsSpace(s[i])
    ensures n < |s| ==> !IsSpace(s[n])
    decreases |s| - k
  {
    if k < |s| && IsSpace(s[k]) then SkipSpaceFrom(s, k + 1) else k
  }

  /** The end of the text before `k` once trailing white space is dropped. */
  function SkipSpaceBack(s: string, k: nat): (n: nat)
    requires k <= |s|
    ensures n <= k
    ensures forall i :: n <= i < k ==> IsSpace(s[i])
    ensures n > 0 ==> !IsSpace(s[n - 1])
  {
    if k > 0 && IsSpace(s[k - 1]) then SkipSpaceBack(s, k - 1) else k
  }

  /** `raw.strip()`: white space removed from both ends. */
  function Strip(s: string): (r: string)
    ensures |r| <= |s|
    ensures |r| > 0 ==> !IsSpace(r[0]) && !IsSpace(r[|r| - 1])
  {
    var lo, hi := SkipSpaceFrom(s, 0), SkipSpaceBack(s, |s|);
    if hi <= lo then [] else s[lo..hi]
  }

  /** What `strip` keeps is the piece of the input after its leading white
      space, with only white space cut off after it, and neither end of it
      is white space; an input of white space only becomes empty. */
  lemma StripIsTrimmedSlice(s: string)
    ensures var lo, r := SkipSpaceFrom(s, 0), Strip(s);
            lo + |r| <= |s| && r == s[lo..lo + |r|]
            && (forall i :: 0 <= i < lo ==> IsSpace(s[i]))
            && (forall i :: lo + |r| <= i < |s| ==> IsSpace(s[i]))
            && (|r| > 0 ==> !IsSpace(r[0]) && !IsSpace(r[|r| - 1]))
  {
    var lo, hi := SkipSpaceFrom(s, 0), SkipSpaceBack(s, |s|);
    if hi <= lo {
      assert lo == |s|;
    }
  }

  /** A string with no white space is left as it is. */
  lemma StripNoSpace(s: string)
    requires forall i :: 0 <= i < |s| ==> !IsSpace(s[i])
    ensures Strip(s) == s
  {
  }

  /** One white-space character in front of a string without white space
      is removed, whichever white-space character it is. */
  lemma StripLeadingSpace(c: char, s: string)
    requires IsSpace(c)
    requires forall i :: 0 <= i < |s| ==> !IsSpace(s[i])
    ensures Strip([c] + s) == s
  {
    var t := [c] + s;
    assert forall i :: 1 <= i < |t| ==> t[i] == s[i - 1];
    assert SkipSpaceFrom(t, 1) == 1 || |s| == 0;
    assert SkipSpaceFrom(t, 0) == SkipSpaceFrom(t, 1);
    assert t[1..] == s;
  }

  // ---------------------------------------------------------------------------
  // Decimal digits
  // ---------------------------------------------------------------------------

  predicate IsDigit(c: char)
  {
    '0' <= c <= '9'
  }

  predicate AllDigits(s: string)
  {
    forall i :: 0 <= i < |s| ==> IsDigit(s[i])
  }

  /** `str.isdigit()` on ASCII text: non-empty and every character a digit. */
  predicate IsDigits(s: string)
  {
    |s| > 0 && AllDigits(s)
  }

  lemma AllDigitsSlice(s: string, lo: nat, hi: nat)
    requires AllDigits(s) && lo <= hi <= |s|
    ensures AllDigits(s[lo..hi])
  {
    assert forall i :: 0 <= i < hi - lo ==> s[lo..hi][i] == s[lo + i];
  }

  function DigitValue(c: char): (d: nat)
    requires IsDigit(c)
    ensures d < 10
  {
    (c - '0') as nat
  }

  function DigitChar(d: nat): (c: char)
    requires d < 10
    ensures IsDigit(c) && DigitValue(c) == d
  {
    ('0' as int + d) as char
  }

  function Pow10(n: nat): (p: nat)
    ensures p > 0
  {
    if n == 0 then 1 else 10 * Pow10(n - 1)
  }

  /** `int(s)` for a string of decimal digits: the most significant digit first. */
  function DigitsValue(s: string): (n: nat)
    requires AllDigits(s)
    ensures n < Pow10(|s|)
  {
    if |s| == 0 then 0
    else
      AllDigitsSlice(s, 0, |s| - 1);
      DigitsValue(s[..|s| - 1]) * 10 + DigitValue(s[|s| - 1])
  }

  /** `n` written with exactly `w` digits, zero-padded on the left (`f"{n:0w}"`
      for `n < 10^w`). */
  function Digits(n: nat, w: nat): (s: string)
    ensures |s| == w
    ensures AllDigits(s)
  {
    if w == 0 then [] else Digits(n / 10, w - 1) + [DigitChar(n % 10)]
  }

  lemma DivModTen(a: nat, b: nat)
    requires b < 10
    ensures (a * 10 + b) / 10 == a && (a * 10 + b) % 10 == b
  {
  }

  /** Writing a number in `w` digits and reading it back gives the number. */
  lemma {:induction false} DigitsValueOfDigits(n: nat, w: nat)
    requires n < Pow10(w)
    ensures DigitsValue(Digits(n, w)) == n
  {
    if w > 0 {
      var s := Digits(n, w);
      assert s[..|s| - 1] == Digits(n / 10, w - 1);
      DigitsValueOfDigits(n / 10, w - 1);
    }
  }

  /** Reading a digit string and writing it back in as many digits gives the
      string: leading zeros survive. */
  lemma {:induction false} DigitsOfDigitsValue(s: string)
    requires AllDigits(s)
    ensures Digits(DigitsValue(s), |s|) == s
  {
    if |s| > 0 {
      var front, last := s[..|s| - 1], s[|s| - 1];
      AllDigitsSlice(s, 0, |s| - 1);
      DivModTen(DigitsValue(front), DigitValue(last));
      DigitsOfDigitsValue(front);
      assert s == front + [last];
    }
  }

  // ---------------------------------------------------------------------------
  // The expiry field
  // ---------------------------------------------------------------------------

  /** `int(s[lo:hi])` on a digit string. */
  function Field(s: string, lo: nat, hi: nat): (n: nat)
    requires AllDigits(s) && lo <= hi <= |s|
    ensures n < Pow10(hi - lo)
  {
    AllDigitsSlice(s, lo, hi);
    DigitsValue(s[lo..hi])
  }

  /** Reads the entry: `None` is the "must be 8 digits in MMDDYYYY format"
      rejection; otherwise the month, day and year slices as numbers. */
  function ParseExpiry(raw: string): (r: Option<ExpiryDate>)
    ensures var s := Strip(raw);
            r.Some? <==> |s| == 8 && IsDigits(s)
    ensures var s := Strip(raw);
            r.Some? ==> AllDigits(s) && |s| == 8
                        && r.value == ExpiryDate(Field(s, 0, 2), Field(s, 2, 4), Field(s, 4, 8))
  {
    var s := Strip(raw);
    if |s| != 8 || !IsDigits(s) then None
    else Some(ExpiryDate(Field(s, 0, 2), Field(s, 2, 4), Field(s, 4, 8)))
  }

  /** A date that fits the field, written as MMDDYYYY. */
  predicate Representable(d: ExpiryDate)
  {
    d.month < 100 && d.day < 100 && d.year < 10000
  }

  function FormatExpiry(d: ExpiryDate): (s: string)
    requires Representable(d)
    ensures |s| == 8 && IsDigits(s)
  {
    Digits(d.month, 2) + Digits(d.day, 2) + Digits(d.year, 4)
  }

  /** Every representable date written as MMDDYYYY is accepted and read back unchanged. */
  lemma ParseFormat(d: ExpiryDate)
    requires Representable(d)
    ensures ParseExpiry(FormatExpiry(d)) == Some(d)
  {
    var s := FormatExpiry(d);
    StripNoSpace(s);
    assert s[..2] == Digits(d.month, 2);
    assert s[2..4] == Digits(d.day, 2);
    assert s[4..] == Digits(d.year, 4);
    DigitsValueOfDigits(d.month, 2);
    DigitsValueOfDigits(d.day, 2);
    DigitsValueOfDigits(d.year, 4);
  }

  /** An accepted entry, once stripped, is exactly the MMDDYYYY text of the date read from it. */
  lemma FormatParse(raw: string)
    requires ParseExpiry(raw).Some?
    ensures Representable(ParseExpiry(raw).value)
    ensures FormatExpiry(ParseExpiry(raw).value) == Strip(raw)
  {
    var s := Strip(raw);
    var d := ParseExpiry(raw).value;
    assert Pow10(2) == 100 && Pow10(4) == 10000;
    AllDigitsSlice(s, 0, 2);
    AllDigitsSlice(s, 2, 4);
    AllDigitsSlice(s, 4, 8);
    DigitsOfDigitsValue(s[0..2]);
    DigitsOfDigitsValue(s[2..4]);
    DigitsOfDigitsValue(s[4..8]);
    assert Digits(d.month, 2) == s[0..2];
    assert Digits(d.day, 2) == s[2..4];
    assert Digits(d.year, 4) == s[4..8];
    assert s == s[0..2] + s[2..4] + s[4..8];
  }

  /** A date entered with a white-space character in front, such as a tab or
      the unit separator U+001F, is accepted and read as the date. */
  lemma ParseAfterLeadingSpace(c: char, d: ExpiryDate)
    requires IsSpace(c) && Representable(d)
    ensures ParseExpiry([c] + FormatExpiry(d)) == Some(d)
  {
    var s := FormatExpiry(d);
    StripLeadingSpace(c, s);
    ParseFormat(d);
    StripNoSpace(s);
  }
}
