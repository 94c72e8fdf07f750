/**
 * The few operations of Python's `str` that the retrieval pipeline relies on:
 * `isspace`/`strip`, ASCII `lower`, `str(n)` for a natural number and
 * `sep.join(items)`.
 */
module Strings {

  /**
   * Python's `str.isspace` on one character: the characters `strip()` removes.
   * This is the complete set for which Python reports whitespace.
   */
  predicate IsSpace(c: char) {
    ('\U{9}' <= c <= '\U{D}') || ('\U{1C}' <= c <= '\U{20}') ||
    c == '\U{85}' || c == '\U{A0}' || c == '\U{1680}' ||
    ('\U{2000}' <= c <= '\U{200A}') || c == '\U{2028}' || c == '\U{2029}' ||
    c == '\U{202F}' || c == '\U{205F}' || c == '\U{3000}'
  }

  /** `s.strip()` is empty exactly for these strings (the empty string included). */
  predicate AllSpace(s: string) {
    forall i :: 0 <= i < |s| ==> IsSpace(s[i])
  }

  /** Neither end of `s` is whitespace: what `strip()` leaves behind. */
  predicate Trimmed(s: string) {
    s == [] || (!IsSpace(s[0]) && !IsSpace(s[|s| - 1]))
  }

  /** `s.lstrip()`: drops the longest all-whitespace prefix. */
  function TrimStart(s: string): string {
    if s != [] && IsSpace(s[0]) then TrimStart(s[1..]) else s
  }

  /** `s.rstrip()`: drops the longest all-whitespace suffix. */
  function TrimEnd(s: string): string {
    if s != [] && IsSpace(s[|s| - 1]) then TrimEnd(s[..|s| - 1]) else s
  }

  /** `lstrip` removes a prefix made only of whitespace and stops at the first other character. */
  lemma {:induction false} TrimStartSpec(s: string)
    ensures |TrimStart(s)| <= |s| && TrimStart(s) == s[|s| - |TrimStart(s)|..]
    ensures AllSpace(s[..|s| - |TrimStart(s)|])
    ensures TrimStart(s) == [] || !IsSpace(TrimStart(s)[0])
  {
    if s != [] && IsSpace(s[0]) {
      TrimStartSpec(s[1..]);
      var n := |s| - |TrimStart(s)|;
      assert s[..n] == [s[0]] + s[1..][..n - 1];
    }
  }

  /** `rstrip` removes a suffix made only of whitespace and stops at the last other character. */
  lemma {:induction false} TrimEndSpec(s: string)
    ensures |TrimEnd(s)| <= |s| && TrimEnd(s) == s[..|TrimEnd(s)|]
    ensures AllSpace(s[|TrimEnd(s)|..])
    ensures TrimEnd(s) == [] || !IsSpace(TrimEnd(s)[|TrimEnd(s)| - 1])
  {
    if s != [] && IsSpace(s[|s| - 1]) {
      var init := s[..|s| - 1];
      TrimEndSpec(init);
      var n := |TrimEnd(s)|;
      assert s[n..] == init[n..] + [s[|s| - 1]];
      assert init[..n] == s[..n];
    }
  }

  /** Python's `s.strip()` with no argument. */
  function Strip(s: string): (r: string)
    ensures |r| <= |s|
    ensures Trimmed(r)
  {
    TrimStartSpec(s);
    TrimEndSpec(TrimStart(s));
    TrimEnd(TrimStart(s))
  }

  /** `s.strip()` is empty exactly when `s` is blank: `if c.strip()` tests for blankness. */
  lemma StripEmptyIffBlank(s: string)
    ensures Strip(s) == [] <==> AllSpace(s)
  {
    var t := TrimStart(s);
    var r := TrimEnd(t);
    TrimStartSpec(s);
    TrimEndSpec(t);
    if r == [] {
      assert t[|r|..] == t;
      assert s[..|s| - |t|] == s;
    }
    assert t != [] ==> t[0] == s[|s| - |t|];
  }

  /**
   * `s.strip()` is the slice of `s` between an all-whitespace prefix and an
   * all-whitespace suffix; `a` is where that slice begins.
   */
  lemma StripIsSlice(s: string) returns (a: nat)
    ensures a + |Strip(s)| <= |s|
    ensures Strip(s) == s[a..a + |Strip(s)|]
    ensures AllSpace(s[..a]) && AllSpace(s[a + |Strip(s)|..])
  {
    var t := TrimStart(s);
    var r := TrimEnd(t);
    TrimStartSpec(s);
    TrimEndSpec(t);
    a := |s| - |t|;
    assert r == t[..|r|];
    assert t == s[a..];
    assert s[a + |r|..] == t[|r|..];
  }

  /** A string whose ends are not whitespace is left alone by `strip()`. */
  lemma {:induction false} StripTrimmed(s: string)
    requires Trimmed(s)
    ensures Strip(s) == s
  {
    if s != [] {
      assert TrimStart(s) == s;
      assert TrimEnd(s) == s;
    }
  }

  /** Python's `str.lower()` on one character, for the ASCII letters. */
  function LowerChar(c: char): char {
    if 'A' <= c <= 'Z' then (c as int + 32) as char else c
  }

  /** `s.lower()`, character by character. */
  function Lower(s: string): (r: string)
    ensures |r| == |s|
  {
    seq(|s|, i requires 0 <= i < |s| => LowerChar(s[i]))
  }

  /** The character for a decimal digit. */
  function DigitChar(d: nat): (c: char)
    requires d < 10
    ensures '0' <= c <= '9'
  {
    ('0' as int + d) as char
  }

  predicate IsDigit(c: char) {
    '0' <= c <= '9'
  }

  predicate AllDigits(s: string) {
    forall i :: 0 <= i < |s| ==> IsDigit(s[i])
  }

  /** Python's `str(n)` (an f-string field) for a natural number. */
  function DecimalString(n: nat): (r: string)
    ensures |r| >= 1 && AllDigits(r)
    ensures r[0] == '0' ==> n == 0
    decreases n
  {
    if n < 10 then [DigitChar(n)] else DecimalString(n / 10) + [DigitChar(n % 10)]
  }

  /** Reads a string of decimal digits back as a number: `int(s)`. */
  function DecimalValue(s: string): nat
    requires AllDigits(s)
  {
    if s == [] then 0 else DecimalValue(s[..|s| - 1]) * 10 + (s[|s| - 1] as int - '0' as int)
  }

  /** `int(str(n)) == n`. */
  lemma {:induction false} DecimalRoundTrip(n: nat)
    ensures DecimalValue(DecimalString(n)) == n
    decreases n
  {
    var r := DecimalString(n);
    if n >= 10 {
      DecimalRoundTrip(n / 10);
      assert r[..|r| - 1] == DecimalString(n / 10);
    }
  }

  /** Python's `sep.join(items)`. */
  function Join(sep: string, items: seq<string>): (r: string)
    ensures items == [] ==> r == ""
    ensures items != [] ==> |r| >= |items[0]| && r[..|items[0]|] == items[0]
    ensures items != [] ==> |r| >= |items[|items| - 1]| && r[|r| - |items[|items| - 1]|..] == items[|items| - 1]
  {
    if |items| == 0 then ""
    else if |items| == 1 then items[0]
    else
      var rest := Join(sep, items[1..]);
      assert items[1..][|items[1..]| - 1] == items[|items| - 1];
      assert (items[0] + sep + rest)[..|items[0]|] == items[0];
      items[0] + sep + rest
  }

  /** Joining one more item appends the separator and the item. */
  lemma {:induction false} JoinSnoc(sep: string, items: seq<string>, last: string)
    requires items != []
    ensures Join(sep, items + [last]) == Join(sep, items) + sep + last
  {
    if |items| == 1 {
      assert items + [last] == [items[0], last];
    } else {
      var tail := items[1..];
      JoinSnoc(sep, tail, last);
      assert (items + [last])[1..] == tail + [last];
      calc {
        Join(sep, items + [last]);
        items[0] + sep + Join(sep, tail + [last]);
        items[0] + sep + (Join(sep, tail) + sep + last);
        (items[0] + sep + Join(sep, tail)) + sep + last;
        Join(sep, items) + sep + last;
      }
    }
  }
}
