/**
 * The text that `Date.prototype.toISOString` produces for years 0..9999
 * (`YYYY-MM-DDTHH:mm:ss.sssZ`), the date part that `split('T')[0]` takes from
 * it, and a decoder that reads a date part back, so that properties of the
 * strings the script builds can be stated as properties of calendar dates.
 */
module IsoFormat {
  import opened Wrappers
  import opened Calendar

  function Pow10(w: nat): (p: nat)
    ensures p >= 1
  {
    if w == 0 then 1 else 10 * Pow10(w - 1)
  }

  predicate IsDigit(c: char) {
    '0' <= c <= '9'
  }

  predicate AllDigits(s: string) {
    forall i :: 0 <= i < |s| ==> IsDigit(s[i])
  }

  function DigitChar(k: int): (c: char)
    requires 0 <= k < 10
    ensures IsDigit(c)
  {
    ('0' as int + k) as char
  }

  /** `n` written in decimal with exactly `width` digits, zero-padded on the left. */
  function Digits(n: nat, width: nat): (s: string)
    ensures |s| == width && AllDigits(s)
  {
    if width == 0 then [] else Digits(n / 10, width - 1) + [DigitChar(n % 10)]
  }

  /** The value of a string of decimal digits. */
  function DigitsValue(s: string): (n: nat)
    requires AllDigits(s)
    ensures n < Pow10(|s|)
  {
    if s == [] then 0
    else DigitsValue(s[..|s| - 1]) * 10 + (s[|s| - 1] as int - '0' as int)
  }

  /** Reading back a zero-padded number gives the number, whenever it fits in the width. */
  lemma {:induction false} DigitsRoundTrip(n: nat, width: nat)
    requires n < Pow10(width)
    ensures DigitsValue(Digits(n, width)) == n
  {
    if width > 0 {
      var s := Digits(n, width);
      assert s[..|s| - 1] == Digits(n / 10, width - 1);
      DigitsRoundTrip(n / 10, width - 1);
    }
  }

  /** Whether a date prints as `YYYY-MM-DD` in toISOString (no expanded `±YYYYYY` year). */
  predicate Printable(d: Date) {
    ValidDate(d) && 0 <= d.year <= 9999
  }

  predicate PrintableDateTime(t: DateTime) {
    ValidDateTime(t) && 0 <= t.date.year <= 9999
  }

  /** `YYYY-MM-DD`. */
  function IsoDate(d: Date): (s: string)
    requires Printable(d)
    ensures |s| == 10 && s[4] == '-' && s[7] == '-'
    ensures 'T' !in s
  {
    Digits(d.year, 4) + "-" + Digits(d.month, 2) + "-" + Digits(d.day, 2)
  }

  /** `Date.prototype.toISOString` for a date-time with a four-digit year. */
  function ToIsoString(t: DateTime): (s: string)
    requires PrintableDateTime(t)
    ensures |s| == 24 && s[10] == 'T' && s[23] == 'Z'
    ensures s[..10] == IsoDate(t.date)
  {
    IsoDate(t.date) + "T" + Digits(t.hour, 2) + ":" + Digits(t.minute, 2) + ":"
      + Digits(t.second, 2) + "." + Digits(t.millis, 3) + "Z"
  }

  /**
   * `s.split(sep)[0]`: the longest prefix of `s` that does not contain `sep`,
   * which is either all of `s` or ends just before the first `sep`.
   */
  function FirstField(s: string, sep: char): (r: string)
    ensures r <= s && sep !in r
    ensures r == s || s[|r|] == sep
  {
    if s == [] || s[0] == sep then [] else [s[0]] + FirstField(s[1..], sep)
  }

  /** The first field of `a + [sep] + b` is `a` whenever `a` does not contain `sep`. */
  lemma {:induction false} FirstFieldOfJoin(a: string, sep: char, b: string)
    requires sep !in a
    ensures FirstField(a + [sep] + b, sep) == a
  {
    if a != [] {
      assert (a + [sep] + b)[1..] == a[1..] + [sep] + b;
      FirstFieldOfJoin(a[1..], sep, b);
    }
  }

  /** `toISOString().split('T')[0]`: the date part, which does not depend on the time of day. */
  function IsoDatePart(t: DateTime): (s: string)
    requires PrintableDateTime(t)
    ensures s == IsoDate(t.date)
  {
    var iso := ToIsoString(t);
    FirstFieldOfJoin(IsoDate(t.date), 'T', iso[11..]);
    assert iso == IsoDate(t.date) + ['T'] + iso[11..];
    FirstField(iso, 'T')
  }

  /** Reads `YYYY-MM-DD` back into a date; anything else is None. */
  function ParseIsoDate(s: string): (r: Option<Date>)
    ensures r.Some? ==> |s| == 10 && s[4] == '-' && s[7] == '-'
  {
    if |s| == 10 && s[4] == '-' && s[7] == '-'
       && AllDigits(s[..4]) && AllDigits(s[5..7]) && AllDigits(s[8..])
    then Some(Date(DigitsValue(s[..4]), DigitsValue(s[5..7]), DigitsValue(s[8..])))
    else None
  }

  /** Printing a date and reading it back gives the same date. */
  lemma IsoDateRoundTrip(d: Date)
    requires Printable(d)
    ensures ParseIsoDate(IsoDate(d)) == Some(d)
  {
    var s := IsoDate(d);
    assert s[..4] == Digits(d.year, 4);
    assert s[5..7] == Digits(d.month, 2);
    assert s[8..] == Digits(d.day, 2);
    DigitsRoundTrip(d.year, 4);
    DigitsRoundTrip(d.month, 2);
    DigitsRoundTrip(d.day, 2);
  }

  /** Two printable dates print the same exactly when they are the same date. */
  lemma IsoDateInjective(a: Date, b: Date)
    requires Printable(a) && Printable(b)
    ensures IsoDate(a) == IsoDate(b) <==> a == b
  {
    IsoDateRoundTrip(a);
    IsoDateRoundTrip(b);
  }
}
