/** The `YYYY-MM-DD HH:MM:SS` text under which an incident's date is stored, built from the
    local-time calendar fields of the submitted date. */
module DateTime {

  import opened Types

  /** Calendar fields as the getters of a JavaScript `Date` return them: the month is 0-based. */
  datatype DateParts = DateParts(year: nat, month0: nat, day: nat, hours: nat, minutes: nat, seconds: nat)

  /** The ranges the getters of a valid date stay within. */
  predicate InRange(d: DateParts) {
    d.month0 < 12 && 1 <= d.day <= 31 && d.hours < 24 && d.minutes < 60 && d.seconds < 60
  }

  predicate IsDigit(c: char) {
    '0' <= c <= '9'
  }

  predicate AllDigits(s: string) {
    forall i :: 0 <= i < |s| ==> IsDigit(s[i])
  }

  function DigitChar(n: nat): (c: char)
    requires n < 10
    ensures IsDigit(c)
  {
    ('0' as int + n) as char
  }

  function DigitValue(c: char): (n: nat)
    requires IsDigit(c)
    ensures n < 10 && DigitChar(n) == c
  {
    c as int - '0' as int
  }

  /** Decimal text without sign or leading zeros, as `String(n)` writes a non-negative integer. */
  predicate IsCanonicalNat(s: string) {
    |s| >= 1 && AllDigits(s) && (|s| > 1 ==> s[0] != '0')
  }

  function NatToString(n: nat): (s: string)
    ensures IsCanonicalNat(s)
    ensures n < 10 <==> |s| == 1
    decreases n
  {
    if n < 10 then [DigitChar(n)]
    else
      var prefix := NatToString(n / 10);
      assert (prefix + [DigitChar(n % 10)])[0] == prefix[0];
      prefix + [DigitChar(n % 10)]
  }

  /** The value of a string of decimal digits; the empty string reads as 0. */
  function ParseNat(s: string): nat
    requires AllDigits(s)
    decreases |s|
  {
    if s == [] then 0 else 10 * ParseNat(s[..|s| - 1]) + DigitValue(s[|s| - 1])
  }

  lemma {:induction false} ParseNatToString(n: nat)
    ensures ParseNat(NatToString(n)) == n
    decreases n
  {
    if n >= 10 {
      var s := NatToString(n);
      assert s[..|s| - 1] == NatToString(n / 10);
      ParseNatToString(n / 10);
    }
  }

  /** Only a string of zeros reads as 0. */
  lemma {:induction false} ParseNatZero(s: string)
    requires AllDigits(s) && ParseNat(s) == 0
    ensures forall i :: 0 <= i < |s| ==> s[i] == '0'
    decreases |s|
  {
    if s != [] {
      ParseNatZero(s[..|s| - 1]);
      forall i | 0 <= i < |s| ensures s[i] == '0' {
        if i < |s| - 1 {
          assert s[i] == s[..|s| - 1][i];
        }
      }
    }
  }

  lemma {:induction false} NatToStringParse(s: string)
    requires IsCanonicalNat(s)
    ensures NatToString(ParseNat(s)) == s
    decreases |s|
  {
    var n := ParseNat(s);
    if |s| > 1 {
      var prefix := s[..|s| - 1];
      assert prefix[0] == s[0];
      NatToStringParse(prefix);
      if ParseNat(prefix) == 0 {
        ParseNatZero(prefix);
        assert false;
      }
      assert n / 10 == ParseNat(prefix) && n % 10 == DigitValue(s[|s| - 1]);
      assert s == prefix + [s[|s| - 1]];
    }
  }

  /** `String(n).padStart(2, '0')`: a one-digit number gets a leading zero, a longer one is left as it is. */
  function Pad2(n: nat): (s: string)
    ensures AllDigits(s) && ParseNat(s) == n
    ensures n < 100 ==> |s| == 2
  {
    ParseNatToString(n);
    if n < 10 then
      var s := "0" + NatToString(n);
      assert s[..1] == "0" && ParseNat(s[..1]) == 0;
      s
    else NatToString(n)
  }

  predicate TwoDigits(s: string) {
    |s| == 2 && AllDigits(s)
  }

  /** Every two-digit text is the padding of its own value. */
  lemma PadOfTwoDigits(s: string)
    requires TwoDigits(s)
    ensures Pad2(ParseNat(s)) == s
  {
    var n := ParseNat(s);
    assert s[..1] == [s[0]];
    if s[0] != '0' {
      NatToStringParse(s);
    } else {
      assert s[..1][..0] == [];
      assert ParseNat(s[..1]) == 0;
      assert n == DigitValue(s[1]);
      assert s == "0" + [s[1]];
    }
  }

  /** One separator followed by a two-digit field, such as `-05` or `:07`. */
  function Field(sep: char, n: nat): (f: string)
    ensures n < 100 ==> |f| == 3
  {
    [sep] + Pad2(n)
  }

  /** The part after the year: `-MM-DD HH:MM:SS`, with the 0-based month written plus one. */
  function Tail(d: DateParts): string {
    Field('-', d.month0 + 1) + Field('-', d.day) + Field(' ', d.hours) + Field(':', d.minutes) + Field(':', d.seconds)
  }

  /** The formatting of the submitted incident date before it is stored. */
  function ToMySQLDateTime(d: DateParts): (s: string)
    ensures InRange(d) ==> |s| == |NatToString(d.year)| + 15
  {
    NatToString(d.year) + Tail(d)
  }

  /** Reads a separator and a two-digit field. */
  function ParseField(b: string, sep: char): Option<nat> {
    if |b| == 3 && b[0] == sep && TwoDigits(b[1..]) then Some(ParseNat(b[1..])) else None
  }

  /** Reads the year: canonical decimal text only. */
  function ParseYear(y: string): Option<nat> {
    if IsCanonicalNat(y) then Some(ParseNat(y)) else None
  }

  /** Puts read fields together; the month is read 1-based and kept 0-based. */
  function Combine(year: Option<nat>, month: Option<nat>, day: Option<nat>,
                   hours: Option<nat>, minutes: Option<nat>, seconds: Option<nat>): Option<DateParts> {
    if year.None? || month.None? || day.None? || hours.None? || minutes.None? || seconds.None? then None
    else if month.value == 0 then None
    else
      var d := DateParts(year.value, month.value - 1, day.value, hours.value, minutes.value, seconds.value);
      if InRange(d) then Some(d) else None
  }

  /** Combining the fields of a date in range gives that date back. */
  lemma CombineFields(d: DateParts)
    requires InRange(d)
    ensures Combine(Some(d.year), Some(d.month0 + 1), Some(d.day), Some(d.hours), Some(d.minutes), Some(d.seconds)) == Some(d)
  {
  }

  /** A successful combination read every field, and the date it gives is in range. */
  lemma CombineRead(year: Option<nat>, month: Option<nat>, day: Option<nat>,
                    hours: Option<nat>, minutes: Option<nat>, seconds: Option<nat>)
    requires Combine(year, month, day, hours, minutes, seconds).Some?
    ensures var d := Combine(year, month, day, hours, minutes, seconds).value;
            InRange(d) && year == Some(d.year) && month == Some(d.month0 + 1) && day == Some(d.day) &&
            hours == Some(d.hours) && minutes == Some(d.minutes) && seconds == Some(d.seconds)
  {
  }

  /** Reads the stored text back into calendar fields; `None` for text the formatter cannot produce. */
  function ParseMySQLDateTime(s: string): Option<DateParts> {
    if |s| < 16 then None
    else
      var t := s[|s| - 15..];
      Combine(ParseYear(s[..|s| - 15]), ParseField(t[0..3], '-'), ParseField(t[3..6], '-'),
              ParseField(t[6..9], ' '), ParseField(t[9..12], ':'), ParseField(t[12..15], ':'))
  }

  /** A field below 100 reads back as itself. */
  lemma FieldThenParse(sep: char, n: nat)
    requires n < 100
    ensures ParseField(Field(sep, n), sep) == Some(n)
  {
    var f := Field(sep, n);
    assert f[1..] == Pad2(n);
  }

  /** A field that reads is the formatting of what it reads. */
  lemma ParseThenField(b: string, sep: char)
    requires ParseField(b, sep).Some?
    ensures Field(sep, ParseField(b, sep).value) == b
  {
    PadOfTwoDigits(b[1..]);
    assert b == [b[0]] + b[1..];
  }

  /** Five three-character blocks put together are found again at offsets 0, 3, 6, 9 and 12. */
  lemma Blocks(a: string, b: string, c: string, d: string, e: string)
    requires |a| == 3 && |b| == 3 && |c| == 3 && |d| == 3 && |e| == 3
    ensures var t := a + b + c + d + e;
            |t| == 15 && t[0..3] == a && t[3..6] == b && t[6..9] == c && t[9..12] == d && t[12..15] == e
  {
    var t := a + b + c + d + e;
    assert t[0..3] == a;
    assert t[3..6] == b;
    assert t[6..9] == c;
    assert t[9..12] == d;
    assert t[12..15] == e;
  }

  /** A fifteen-character text is its five three-character blocks put together. */
  lemma Reassemble(t: string)
    requires |t| == 15
    ensures t == t[0..3] + t[3..6] + t[6..9] + t[9..12] + t[12..15]
  {
    Blocks(t[0..3], t[3..6], t[6..9], t[9..12], t[12..15]);
  }

  /** The formatted text splits into the year and the five fields. */
  lemma FormatLayout(d: DateParts)
    requires InRange(d)
    ensures var s := ToMySQLDateTime(d);
            var t := s[|s| - 15..];
            s[..|s| - 15] == NatToString(d.year) && t[0..3] == Field('-', d.month0 + 1) && t[3..6] == Field('-', d.day) &&
            t[6..9] == Field(' ', d.hours) && t[9..12] == Field(':', d.minutes) && t[12..15] == Field(':', d.seconds)
  {
    var s := ToMySQLDateTime(d);
    var y := NatToString(d.year);
    Blocks(Field('-', d.month0 + 1), Field('-', d.day), Field(' ', d.hours), Field(':', d.minutes), Field(':', d.seconds));
    assert s[..|y|] == y && s[|y|..] == Tail(d);
  }

  /** Formatting a date in range and reading it back gives the same fields. */
  lemma FormatThenParse(d: DateParts)
    requires InRange(d)
    ensures ParseMySQLDateTime(ToMySQLDateTime(d)) == Some(d)
  {
    var s := ToMySQLDateTime(d);
    var t := s[|s| - 15..];
    FormatLayout(d);
    ParseNatToString(d.year);
    assert ParseYear(s[..|s| - 15]) == Some(d.year);
    FieldThenParse('-', d.month0 + 1);
    FieldThenParse('-', d.day);
    FieldThenParse(' ', d.hours);
    FieldThenParse(':', d.minutes);
    FieldThenParse(':', d.seconds);
    CombineFields(d);
  }

  /** Five fields that read as the fields of `d` are the formatting of `d` after the year. */
  lemma ReadTail(t: string, d: DateParts)
    requires |t| == 15
    requires ParseField(t[0..3], '-') == Some(d.month0 + 1) && ParseField(t[3..6], '-') == Some(d.day)
    requires ParseField(t[6..9], ' ') == Some(d.hours) && ParseField(t[9..12], ':') == Some(d.minutes)
    requires ParseField(t[12..15], ':') == Some(d.seconds)
    ensures Tail(d) == t
  {
    ParseThenField(t[0..3], '-');
    ParseThenField(t[3..6], '-');
    ParseThenField(t[6..9], ' ');
    ParseThenField(t[9..12], ':');
    ParseThenField(t[12..15], ':');
    Reassemble(t);
  }

  /** Every text the reader accepts is the formatting of what it reads. */
  lemma ParseThenFormat(s: string)
    requires ParseMySQLDateTime(s).Some?
    ensures InRange(ParseMySQLDateTime(s).value)
    ensures ToMySQLDateTime(ParseMySQLDateTime(s).value) == s
  {
    var d := ParseMySQLDateTime(s).value;
    var n := |s| - 15;
    var y := s[..n];
    var t := s[n..];
    assert s == y + t;
    assert InRange(d) && ParseYear(y) == Some(d.year) && ParseField(t[0..3], '-') == Some(d.month0 + 1) &&
           ParseField(t[3..6], '-') == Some(d.day) && ParseField(t[6..9], ' ') == Some(d.hours) &&
           ParseField(t[9..12], ':') == Some(d.minutes) && ParseField(t[12..15], ':') == Some(d.seconds) by {
      CombineRead(ParseYear(y), ParseField(t[0..3], '-'), ParseField(t[3..6], '-'),
                  ParseField(t[6..9], ' '), ParseField(t[9..12], ':'), ParseField(t[12..15], ':'));
    }
    assert NatToString(d.year) == y by {
      NatToStringParse(y);
    }
    ReadTail(t, d);
  }
}
