/** Minute-precision times of day in the `HH:MM` notation used by the schedule
    request and the schedule file: `datetime.strptime(t, '%H:%M').time()` on
    the way in and `.strftime('%H:%M')` on the way out. */
module Clock {
  import opened Common

  datatype TimeOfDay = TimeOfDay(hour: nat, minute: nat)
  {
    predicate Valid()
    {
      hour < 24 && minute < 60
    }
  }

  /** The `%H` directive: one digit, or two digits from 00 to 23. */
  function ParseHour(h: string): (r: Option<nat>)
    ensures r.Some? ==> r.value < 24
    ensures r.Some? <==> 1 <= |h| <= 2 && (forall i :: 0 <= i < |h| ==> IsDigit(h[i]))
                           && (|h| == 2 ==> 10 * DigitValue(h[0]) + DigitValue(h[1]) < 24)
  {
    if |h| == 1 && IsDigit(h[0]) then Some(DigitValue(h[0]))
    else if |h| == 2 && IsDigit(h[0]) && IsDigit(h[1])
         && ('0' <= h[0] <= '1' || (h[0] == '2' && h[1] <= '3'))
    then Some(10 * DigitValue(h[0]) + DigitValue(h[1]))
    else None
  }

  /** The `%M` directive: one digit, or two digits from 00 to 59. */
  function ParseMinute(m: string): (r: Option<nat>)
    ensures r.Some? ==> r.value < 60
    ensures r.Some? <==> 1 <= |m| <= 2 && (forall i :: 0 <= i < |m| ==> IsDigit(m[i]))
                           && (|m| == 2 ==> 10 * DigitValue(m[0]) + DigitValue(m[1]) < 60)
  {
    if |m| == 1 && IsDigit(m[0]) then Some(DigitValue(m[0]))
    else if |m| == 2 && IsDigit(m[0]) && IsDigit(m[1]) && '0' <= m[0] <= '5'
    then Some(10 * DigitValue(m[0]) + DigitValue(m[1]))
    else None
  }

  /** `datetime.strptime(s, '%H:%M').time()`; `None` stands for the
      `ValueError` strptime raises. Neither field contains a colon, so the
      colon sits at index 1 or 2 and the whole string must be consumed. */
  function Parse(s: string): (r: Option<TimeOfDay>)
    ensures r.Some? ==> r.value.Valid()
    ensures r.Some? ==> 3 <= |s| <= 5 && ':' in s
  {
    if 2 <= |s| && s[1] == ':' then Combine(ParseHour(s[..1]), ParseMinute(s[2..]))
    else if 3 <= |s| && s[2] == ':' then Combine(ParseHour(s[..2]), ParseMinute(s[3..]))
    else None
  }

  function Combine(h: Option<nat>, m: Option<nat>): Option<TimeOfDay>
  {
    if h.Some? && m.Some? then Some(TimeOfDay(h.value, m.value)) else None
  }

  /** Two zero-padded decimal digits, as `%H` and `%M` print. */
  function TwoDigits(n: nat): (r: string)
    requires n < 100
    ensures |r| == 2 && IsDigit(r[0]) && IsDigit(r[1])
    ensures 10 * DigitValue(r[0]) + DigitValue(r[1]) == n
  {
    [DigitChar(n / 10), DigitChar(n % 10)]
  }

  /** `t.strftime('%H:%M')`. */
  function Format(t: TimeOfDay): (r: string)
    requires t.Valid()
    ensures |r| == 5 && r[2] == ':'
  {
    TwoDigits(t.hour) + ":" + TwoDigits(t.minute)
  }

  /** Formatting then parsing gives back the same time of day: the schedule
      file keeps minute precision exactly. */
  lemma ParseFormat(t: TimeOfDay)
    requires t.Valid()
    ensures Parse(Format(t)) == Some(t)
  {
  }

  /** On a five-character input the parser is undone by the formatter: the
      zero-padded form is the only five-character spelling of a time. */
  lemma FormatParse(s: string)
    requires |s| == 5 && Parse(s).Some?
    ensures Format(Parse(s).value) == s
  {
  }

  /** The parser accepts unpadded fields, so distinct request strings can
      name the same time of day; only the padded spelling is written back. */
  lemma UnpaddedAccepted()
    ensures Parse("9:05") == Parse("09:05") == Some(TimeOfDay(9, 5))
    ensures Parse("24:00") == None && Parse("12:60") == None && Parse("12:345") == None
  {
  }

  /** The spellings of a field value that `%H` and `%M` accept: two
      zero-padded digits, or a single digit for values below ten. */
  predicate FieldSpelling(f: string, n: nat)
  {
    (n < 100 && f == TwoDigits(n)) || (n < 10 && f == [DigitChar(n)])
  }

  /** The spellings of a time of day: hour field, colon, minute field. */
  predicate Spelling(s: string, t: TimeOfDay)
  {
    && t.Valid()
    && exists k :: 1 <= k <= 2 && k < |s| && s[k] == ':' && FieldSpelling(s[..k], t.hour) && FieldSpelling(s[k + 1..], t.minute)
  }

  lemma HourSpelling(h: string, n: nat)
    ensures ParseHour(h) == Some(n) <==> n < 24 && FieldSpelling(h, n)
  {
    if ParseHour(h) == Some(n) && |h| == 2 {
      assert n / 10 == DigitValue(h[0]) && n % 10 == DigitValue(h[1]);
    }
    if n < 24 && FieldSpelling(h, n) && h == TwoDigits(n) {
      assert ParseHour(h).Some?;
    }
  }

  lemma MinuteSpelling(m: string, n: nat)
    ensures ParseMinute(m) == Some(n) <==> n < 60 && FieldSpelling(m, n)
  {
    if ParseMinute(m) == Some(n) && |m| == 2 {
      assert n / 10 == DigitValue(m[0]) && n % 10 == DigitValue(m[1]);
    }
    if n < 60 && FieldSpelling(m, n) && m == TwoDigits(n) {
      assert ParseMinute(m).Some?;
    }
  }

  /** `strptime(s, '%H:%M')` accepts exactly the spellings of valid times:
      each field zero-padded or, below ten, a single digit. */
  lemma ParseSpellings(s: string, t: TimeOfDay)
    ensures Parse(s) == Some(t) <==> Spelling(s, t)
  {
    if Parse(s) == Some(t) {
      var k := if s[1] == ':' then 1 else 2;
      HourSpelling(s[..k], t.hour);
      MinuteSpelling(s[k + 1..], t.minute);
    }
    if Spelling(s, t) {
      var k :| 1 <= k <= 2 && k < |s| && s[k] == ':' && FieldSpelling(s[..k], t.hour) && FieldSpelling(s[k + 1..], t.minute);
      HourSpelling(s[..k], t.hour);
      MinuteSpelling(s[k + 1..], t.minute);
    }
  }

  /** Every valid time is read back from each of its spellings: the padded
      one, and the ones dropping the leading zero of an hour or minute
      below ten. */
  lemma UnpaddedSpellingsParse(t: TimeOfDay)
    requires t.Valid()
    ensures Parse(TwoDigits(t.hour) + ":" + TwoDigits(t.minute)) == Some(t)
    ensures t.hour < 10 ==> Parse([DigitChar(t.hour)] + ":" + TwoDigits(t.minute)) == Some(t)
    ensures t.minute < 10 ==> Parse(TwoDigits(t.hour) + ":" + [DigitChar(t.minute)]) == Some(t)
    ensures t.hour < 10 && t.minute < 10 ==> Parse([DigitChar(t.hour)] + ":" + [DigitChar(t.minute)]) == Some(t)
  {
    var hs := [TwoDigits(t.hour)] + (if t.hour < 10 then [[DigitChar(t.hour)]] else []);
    var ms := [TwoDigits(t.minute)] + (if t.minute < 10 then [[DigitChar(t.minute)]] else []);
    forall h, m | h in hs && m in ms
      ensures Parse(h + ":" + m) == Some(t)
    {
      var s := h + ":" + m;
      assert s[..|h|] == h && s[|h| + 1..] == m && s[|h|] == ':';
      ParseSpellings(s, t);
    }
  }
}
