/**
  String helpers the leave engine needs: decimal rendering of counts, the
  JavaScript `trim` whitespace set, the `^\d{4}-\d{2}-\d{2}$` shape check and the
  subset of date-fns `parseISO` that reads `YYYY-MM-DD` dates and clock times
  without a fraction or a zone.
*/
module Text {
  import opened Wrappers
  import opened Calendar

  predicate IsDigit(c: char) {
    '0' <= c <= '9'
  }

  function DigitChar(n: int): (c: char)
    requires 0 <= n < 10
    ensures IsDigit(c) && c as int - '0' as int == n
  {
    ('0' as int + n) as char
  }

  function DigitValue(c: char): (n: int)
    requires IsDigit(c)
    ensures 0 <= n < 10
  {
    c as int - '0' as int
  }

  predicate AllDigits(s: string) {
    forall i :: 0 <= i < |s| ==> IsDigit(s[i])
  }

  /** Decimal rendering of a natural number, as JavaScript template literals produce it. */
  function NatToString(n: nat): (s: string)
    ensures |s| > 0 && AllDigits(s)
  {
    if n < 10 then [DigitChar(n)] else NatToString(n / 10) + [DigitChar(n % 10)]
  }

  /** The number a string of decimal digits denotes. */
  function DigitsValue(s: string): nat
    requires AllDigits(s)
  {
    if s == [] then 0 else DigitsValue(s[..|s| - 1]) * 10 + DigitValue(s[|s| - 1])
  }

  /** The longest prefix of `s` made of decimal digits. */
  function LeadingDigits(s: string): (p: string)
    ensures AllDigits(p) && p <= s
  {
    if s == [] || !IsDigit(s[0]) then [] else [s[0]] + LeadingDigits(s[1..])
  }

  lemma {:induction false} DigitsValueOfNatToString(n: nat)
    ensures DigitsValue(NatToString(n)) == n
  {
    if n >= 10 {
      var s := NatToString(n / 10);
      var t := s + [DigitChar(n % 10)];
      assert t[..|t| - 1] == s;
      DigitsValueOfNatToString(n / 10);
    }
  }

  /** A digit string followed by a non-digit is read back exactly up to that non-digit. */
  lemma {:induction false} LeadingDigitsOfPrefix(a: string, b: string)
    requires AllDigits(a)
    requires b == [] || !IsDigit(b[0])
    ensures LeadingDigits(a + b) == a
  {
    if a != [] {
      assert (a + b)[1..] == a[1..] + b;
      LeadingDigitsOfPrefix(a[1..], b);
    } else {
      assert a + b == b;
    }
  }

  /**
    The characters JavaScript's `String.prototype.trim` removes: the WhiteSpace
    and LineTerminator productions of ECMA-262 (which include every Unicode
    space separator).
  */
  predicate IsJsWhitespace(c: char) {
    ('\U{9}' <= c <= '\U{D}') || c == '\U{20}' || c == '\U{A0}' || c == '\U{1680}'
    || ('\U{2000}' <= c <= '\U{200A}') || c == '\U{2028}' || c == '\U{2029}'
    || c == '\U{202F}' || c == '\U{205F}' || c == '\U{3000}' || c == '\U{FEFF}'
  }

  function TrimStart(s: string): (r: string)
    ensures r == [] || !IsJsWhitespace(r[0])
    ensures |r| <= |s| && r == s[|s| - |r|..]
  {
    if s != [] && IsJsWhitespace(s[0]) then TrimStart(s[1..]) else s
  }

  function TrimEnd(s: string): (r: string)
    ensures r == [] || !IsJsWhitespace(r[|r| - 1])
    ensures r <= s
  {
    if s != [] && IsJsWhitespace(s[|s| - 1]) then TrimEnd(s[..|s| - 1]) else s
  }

  /** JavaScript `trim`. */
  function Trim(s: string): string {
    TrimEnd(TrimStart(s))
  }

  /** A string `trim` leaves alone. */
  predicate IsTrimmed(s: string) {
    s == [] || (!IsJsWhitespace(s[0]) && !IsJsWhitespace(s[|s| - 1]))
  }

  /** Trimming a string that is already trimmed, after any run of leading whitespace, recovers it. */
  lemma {:induction false} TrimAfterLeadingWhitespace(ws: string, s: string)
    requires forall i :: 0 <= i < |ws| ==> IsJsWhitespace(ws[i])
    requires IsTrimmed(s)
    ensures Trim(ws + s) == s
  {
    if ws == [] {
      assert ws + s == s;
      assert TrimStart(s) == s;
    } else {
      assert (ws + s)[1..] == ws[1..] + s;
      TrimAfterLeadingWhitespace(ws[1..], s);
    }
  }

  predicate StartsWith(s: string, prefix: string) {
    prefix <= s
  }

  /** The schema's regular expression `^\d{4}-\d{2}-\d{2}$` (JavaScript `\d` is ASCII only). */
  predicate IsIsoDateShape(s: string) {
    |s| == 10 && s[4] == '-' && s[7] == '-'
    && AllDigits(s[..4]) && AllDigits(s[5..7]) && AllDigits(s[8..])
  }

  /**
    date-fns `parseISO` on a string of the `YYYY-MM-DD` shape: `None` plays the
    part of an Invalid Date, which is what a month or day out of range yields.
  */
  function ParseIsoDate(s: string): (r: Option<Date>)
    ensures r.Some? ==> ValidDate(r.value) && IsIsoDateShape(s)
  {
    if !IsIsoDateShape(s) then None
    else
      var d := Date(DigitsValue(s[..4]), DigitsValue(s[5..7]), DigitsValue(s[8..]));
      if ValidDate(d) then Some(d) else None
  }

  /** Two-digit zero-padded rendering. */
  function Pad2(n: nat): (s: string)
    requires n < 100
    ensures |s| == 2 && AllDigits(s) && DigitsValue(s) == n
  {
    var s := [DigitChar(n / 10), DigitChar(n % 10)];
    assert s[..1][..0] == [];
    assert DigitsValue(s[..1]) == n / 10;
    s
  }

  /** `YYYY-MM-DD` rendering of a date with a four-digit year. */
  function FormatIsoDate(d: Date): (s: string)
    requires ValidDate(d) && 0 <= d.year <= 9999
  {
    Pad2(d.year / 100) + Pad2(d.year % 100) + "-" + Pad2(d.month) + "-" + Pad2(d.day)
  }

  lemma DigitsValueOfPads(a: string, b: string)
    requires |a| == 2 && |b| == 2 && AllDigits(a) && AllDigits(b)
    ensures AllDigits(a + b) && DigitsValue(a + b) == DigitsValue(a) * 100 + DigitsValue(b)
  {
    var s := a + b;
    assert s[..3][..2] == a;
    assert DigitsValue(s[..3]) == DigitsValue(a) * 10 + DigitValue(b[0]);
    assert b[..1][..0] == [];
    assert DigitsValue(b[..1]) == DigitValue(b[0]);
  }

  /** Reading back a rendered date gives the date: `parseISO` inverts the `YYYY-MM-DD` rendering. */
  lemma ParseFormattedDate(d: Date)
    requires ValidDate(d) && 0 <= d.year <= 9999
    ensures ParseIsoDate(FormatIsoDate(d)) == Some(d)
  {
    var y1 := Pad2(d.year / 100);
    var y2 := Pad2(d.year % 100);
    var s := FormatIsoDate(d);
    DigitsValueOfPads(y1, y2);
    assert s[..4] == y1 + y2;
    assert s[5..7] == Pad2(d.month);
    assert s[8..] == Pad2(d.day);
  }

  /**
    One optional-colon time field of date-fns `parseISO`: an optional `:` and then
    two digits. Gives the field's value and the rest of the string.
  */
  function TimeField(t: string): (r: Option<(nat, string)>)
    ensures r.Some? ==> r.value.0 < 100 && |r.value.1| < |t|
  {
    if |t| >= 2 && AllDigits(t[..2]) then Some((TwoDigitValue(t[..2]), t[2..]))
    else if |t| >= 3 && t[0] == ':' && AllDigits(t[1..3]) then Some((TwoDigitValue(t[1..3]), t[3..]))
    else None
  }

  function TwoDigitValue(s: string): (n: nat)
    requires |s| == 2 && AllDigits(s)
    ensures n == DigitsValue(s) && n < 100
  {
    assert s[..1][..0] == [];
    assert DigitsValue(s[..1]) == DigitValue(s[0]);
    assert DigitsValue(s) == DigitValue(s[0]) * 10 + DigitValue(s[1]);
    DigitsValue(s)
  }

  /** date-fns `validateTime`: 24 is an hour only as 24:00:00. */
  predicate ValidClockTime(h: int, m: int, sec: int) {
    if h == 24 then m == 0 && sec == 0 else 0 <= h < 25 && 0 <= m < 60 && 0 <= sec < 60
  }

  /**
    The time part of date-fns `parseISO` applied to `${date}T${time}`, read as
    seconds after midnight: two digits of hours, then up to two fields of minutes
    and seconds, each an optional `:` and two digits (`HH`, `HH:MM`, `HH:MM:SS`,
    `HHMM`, `HHMMSS`, and their mixtures), with absent fields 0.
  */
  function ParseTime(t: string): (r: Option<int>)
    ensures r.Some? ==> 0 <= r.value <= 24 * 3600
  {
    if |t| >= 2 && AllDigits(t[..2]) then
      var h := DigitsValue(t[..2]);
      var minuteField := TimeField(t[2..]);
      var m := if minuteField.Some? then minuteField.value.0 else 0;
      var afterMinutes := if minuteField.Some? then minuteField.value.1 else t[2..];
      var secondField := if minuteField.Some? then TimeField(afterMinutes) else None;
      var sec := if secondField.Some? then secondField.value.0 else 0;
      var rest := if secondField.Some? then secondField.value.1 else afterMinutes;
      if rest == [] && ValidClockTime(h, m, sec) then Some(h * 3600 + m * 60 + sec) else None
    else None
  }

  /** `HH:MM:SS`, the form in which the database returns a stored time. */
  function FormatClockTime(h: nat, m: nat, sec: nat): string
    requires h < 24 && m < 60 && sec < 60
  {
    Pad2(h) + ":" + Pad2(m) + ":" + Pad2(sec)
  }

  /**
    `HH:MM`, as a time input yields it, and `HH:MM:SS`, as the database returns a
    stored time, both parse to the clock time they write.
  */
  lemma ParseClockTime(h: nat, m: nat, sec: nat)
    requires h < 24 && m < 60 && sec < 60
    ensures ParseTime(Pad2(h) + ":" + Pad2(m)) == Some(h * 3600 + m * 60)
    ensures ParseTime(FormatClockTime(h, m, sec)) == Some(h * 3600 + m * 60 + sec)
  {
    var hm := Pad2(h) + ":" + Pad2(m);
    assert hm[..2] == Pad2(h);
    assert hm[2..] == ":" + Pad2(m);
    assert TimeField(":" + Pad2(m)) == Some((m, [])) by {
      assert !IsDigit((":" + Pad2(m))[0]);
      assert (":" + Pad2(m))[1..3] == Pad2(m);
    }
    var hms := FormatClockTime(h, m, sec);
    assert hms[..2] == Pad2(h);
    assert hms[2..] == ":" + Pad2(m) + ":" + Pad2(sec);
    assert TimeField(":" + Pad2(m) + ":" + Pad2(sec)) == Some((m, ":" + Pad2(sec))) by {
      assert !IsDigit((":" + Pad2(m) + ":" + Pad2(sec))[0]);
      assert (":" + Pad2(m) + ":" + Pad2(sec))[1..3] == Pad2(m);
      assert (":" + Pad2(m) + ":" + Pad2(sec))[3..] == ":" + Pad2(sec);
    }
    assert TimeField(":" + Pad2(sec)) == Some((sec, [])) by {
      assert !IsDigit((":" + Pad2(sec))[0]);
      assert (":" + Pad2(sec))[1..3] == Pad2(sec);
    }
  }
}
