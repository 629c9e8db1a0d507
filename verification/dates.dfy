/** `datetime.strptime(date, "%Y-%m-%d")` as a validity test on ASCII
    input.  The format compiles to the regular expression
        (\d\d\d\d)-(1[0-2]|0[1-9]|[1-9])-(3[01]|[12]\d|0[1-9]|[1-9]| [1-9])
    which is matched at the start of the string, alternatives tried left
    to right with backtracking; input left over after the match, a year 0,
    or a day past the end of its month raise `ValueError`.  So month and
    day need not be zero-padded, and a day may be padded with one space. */
module Dates {
  import opened Wrappers

  datatype Date = Date(year: int, month: int, day: int)

  predicate IsLeapYear(y: int) {
    y % 4 == 0 && (y % 100 != 0 || y % 400 == 0)
  }

  function DaysInMonth(y: int, m: int): int
    requires 1 <= m <= 12
  {
    if m == 2 then (if IsLeapYear(y) then 29 else 28)
    else if m == 4 || m == 6 || m == 9 || m == 11 then 30
    else 31
  }

  /** A date `datetime.date` accepts with a four-digit year. */
  predicate ValidDate(d: Date) {
    1 <= d.year <= 9999 && 1 <= d.month <= 12 && 1 <= d.day <= DaysInMonth(d.year, d.month)
  }

  predicate IsDigit(c: char) { '0' <= c <= '9' }

  function DigitValue(c: char): (v: int)
    requires IsDigit(c)
    ensures 0 <= v <= 9
  {
    c as int - '0' as int
  }

  function DigitChar(v: int): (c: char)
    requires 0 <= v <= 9
    ensures IsDigit(c) && DigitValue(c) == v
  {
    ('0' as int + v) as char
  }

  /** The matches of the month group at position `p`, in the order the
      alternatives `1[0-2]`, `0[1-9]`, `[1-9]` are tried: (value, end). */
  function MonthMatches(s: string, p: nat): (ms: seq<(int, nat)>)
    requires p <= |s|
    ensures forall k :: 0 <= k < |ms| ==> 1 <= ms[k].0 <= 12 && p < ms[k].1 <= p + 2 && ms[k].1 <= |s|
  {
    (if p + 2 <= |s| && s[p] == '1' && '0' <= s[p + 1] <= '2'
     then [(10 + DigitValue(s[p + 1]), p + 2)] else [])
    + (if p + 2 <= |s| && s[p] == '0' && '1' <= s[p + 1] <= '9'
       then [(DigitValue(s[p + 1]), p + 2)] else [])
    + (if p + 1 <= |s| && '1' <= s[p] <= '9'
       then [(DigitValue(s[p]), p + 1)] else [])
  }

  /** The matches of the day group at position `p`, in the order the
      alternatives `3[01]`, `[12]\d`, `0[1-9]`, `[1-9]`, ` [1-9]` are tried. */
  function DayMatches(s: string, p: nat): (ds: seq<(int, nat)>)
    requires p <= |s|
    ensures forall k :: 0 <= k < |ds| ==> 1 <= ds[k].0 <= 31 && p < ds[k].1 <= p + 2 && ds[k].1 <= |s|
  {
    (if p + 2 <= |s| && s[p] == '3' && '0' <= s[p + 1] <= '1'
     then [(30 + DigitValue(s[p + 1]), p + 2)] else [])
    + (if p + 2 <= |s| && '1' <= s[p] <= '2' && IsDigit(s[p + 1])
       then [(10 * DigitValue(s[p]) + DigitValue(s[p + 1]), p + 2)] else [])
    + (if p + 2 <= |s| && s[p] == '0' && '1' <= s[p + 1] <= '9'
       then [(DigitValue(s[p + 1]), p + 2)] else [])
    + (if p + 1 <= |s| && '1' <= s[p] <= '9'
       then [(DigitValue(s[p]), p + 1)] else [])
    + (if p + 2 <= |s| && s[p] == ' ' && '1' <= s[p + 1] <= '9'
       then [(DigitValue(s[p + 1]), p + 2)] else [])
  }

  /** A month match ending at `e` can be continued: `-` follows, and a
      day alternative matches after it. */
  predicate Continues(s: string, e: nat) {
    e < |s| && s[e] == '-' && DayMatches(s, e + 1) != []
  }

  /** The (month, day, end) reached through month candidate `m`: the
      first day alternative after the `-`. */
  function MatchThrough(s: string, m: (int, nat)): (int, int, nat)
    requires Continues(s, m.1)
  {
    var d := DayMatches(s, m.1 + 1)[0];
    (m.0, d.0, d.1)
  }

  /** Candidate `k` is the first of `months` that can be continued. */
  predicate FirstContinued(s: string, months: seq<(int, nat)>, k: int) {
    0 <= k < |months| && Continues(s, months[k].1)
    && forall j :: 0 <= j < k ==> !Continues(s, months[j].1)
  }

  /** The match the regular expression engine reaches when the month
      group tries the candidates `months` in order, backtracking to the
      next candidate when no `-` and day follow. */
  function FirstMatch(s: string, months: seq<(int, nat)>): (r: Option<(int, int, nat)>)
    requires forall k :: 0 <= k < |months| ==> 1 <= months[k].0 <= 12 && months[k].1 <= |s|
    ensures r.Some? ==> 1 <= r.value.0 <= 12 && 1 <= r.value.1 <= 31 && r.value.2 <= |s|
    decreases |months|
  {
    if months == [] then
      None
    else if Continues(s, months[0].1) then
      Some(MatchThrough(s, months[0]))
    else
      FirstMatch(s, months[1..])
  }

  /** The match is the first candidate that can be continued, with its
      first day alternative; there is none exactly when no candidate can
      be continued. */
  lemma {:induction false} FirstMatchIsFirstContinued(s: string, months: seq<(int, nat)>)
    requires forall k :: 0 <= k < |months| ==> 1 <= months[k].0 <= 12 && months[k].1 <= |s|
    ensures FirstMatch(s, months).None? <==> forall k :: 0 <= k < |months| ==> !Continues(s, months[k].1)
    ensures FirstMatch(s, months).Some? ==>
      exists k :: FirstContinued(s, months, k) && FirstMatch(s, months).value == MatchThrough(s, months[k])
    decreases |months|
  {
    if months == [] {
    } else if Continues(s, months[0].1) {
      assert FirstContinued(s, months, 0);
    } else {
      var rest := months[1..];
      FirstMatchIsFirstContinued(s, rest);
      assert forall k :: 1 <= k < |months| ==> months[k] == rest[k - 1];
      if FirstMatch(s, rest).Some? {
        var k :| FirstContinued(s, rest, k) && FirstMatch(s, rest).value == MatchThrough(s, rest[k]);
        assert FirstContinued(s, months, k + 1);
      }
    }
  }

  /** The value of the four leading digits. */
  function YearValue(s: string): int
    requires |s| >= 4 && IsDigit(s[0]) && IsDigit(s[1]) && IsDigit(s[2]) && IsDigit(s[3])
  {
    1000 * DigitValue(s[0]) + 100 * DigitValue(s[1]) + 10 * DigitValue(s[2]) + DigitValue(s[3])
  }

  /** `datetime.strptime(s, "%Y-%m-%d")`: the date it denotes, or `None`
      where strptime raises `ValueError`. */
  function ParseDate(s: string): (r: Option<Date>)
    ensures r.Some? ==> ValidDate(r.value)
  {
    if |s| < 5 || !IsDigit(s[0]) || !IsDigit(s[1]) || !IsDigit(s[2]) || !IsDigit(s[3]) || s[4] != '-' then
      None
    else
      match FirstMatch(s, MonthMatches(s, 5))
      case None => None
      case Some((m, d, e)) =>
        var y := YearValue(s);
        if e == |s| && 1 <= y && d <= DaysInMonth(y, m) then Some(Date(y, m, d)) else None
  }

  /** The handler's date check: strptime does not raise. */
  predicate DateOk(s: string) {
    ParseDate(s).Some?
  }

  function Pad2(v: int): (s: string)
    requires 0 <= v <= 99
    ensures |s| == 2 && IsDigit(s[0]) && IsDigit(s[1])
  {
    [DigitChar(v / 10), DigitChar(v % 10)]
  }

  function Pad4(v: int): (s: string)
    requires 0 <= v <= 9999
    ensures |s| == 4 && IsDigit(s[0]) && IsDigit(s[1]) && IsDigit(s[2]) && IsDigit(s[3])
  {
    Pad2(v / 100) + Pad2(v % 100)
  }

  /** A date the two- and four-digit `YYYY-MM-DD` spelling can express,
      valid or not: month `00` and day `99` are spellable too. */
  predicate Spellable(d: Date) {
    0 <= d.year <= 9999 && 0 <= d.month <= 99 && 0 <= d.day <= 99
  }

  /** The canonical `YYYY-MM-DD` spelling, as in the handler's hint `2023-12-01`. */
  function FormatDate(d: Date): (s: string)
    requires Spellable(d)
  {
    Pad4(d.year) + "-" + Pad2(d.month) + "-" + Pad2(d.day)
  }

  lemma ValueOfPad2(v: int)
    requires 0 <= v <= 99
    ensures 10 * DigitValue(Pad2(v)[0]) + DigitValue(Pad2(v)[1]) == v
  {
  }

  lemma YearOfPad4(s: string, y: int)
    requires 0 <= y <= 9999 && |s| >= 4 && s[..4] == Pad4(y)
    ensures IsDigit(s[0]) && IsDigit(s[1]) && IsDigit(s[2]) && IsDigit(s[3]) && YearValue(s) == y
  {
    var hi, lo := Pad2(y / 100), Pad2(y % 100);
    assert s[0] == hi[0] && s[1] == hi[1] && s[2] == lo[0] && s[3] == lo[1];
    ValueOfPad2(y / 100);
    ValueOfPad2(y % 100);
  }

  /** A zero-padded month is matched whole by the first alternative that applies. */
  lemma MonthOfPad2(s: string, p: nat, m: int)
    requires 1 <= m <= 12 && p + 2 <= |s| && s[p..p + 2] == Pad2(m)
    ensures MonthMatches(s, p) != [] && MonthMatches(s, p)[0] == (m, p + 2)
  {
    assert s[p] == Pad2(m)[0] && s[p + 1] == Pad2(m)[1];
  }

  /** A zero-padded day is matched whole by the first alternative that applies. */
  lemma DayOfPad2(s: string, p: nat, d: int)
    requires 1 <= d <= 31 && p + 2 <= |s| && s[p..p + 2] == Pad2(d)
    ensures DayMatches(s, p) != [] && DayMatches(s, p)[0] == (d, p + 2)
  {
    assert s[p] == Pad2(d)[0] && s[p + 1] == Pad2(d)[1];
  }

  /** A zero-padded month outside 1..12 leaves at most its first digit
      to the month group. */
  lemma MonthOutOfRange(s: string, p: nat, m: int)
    requires 0 <= m <= 99 && !(1 <= m <= 12) && p + 2 <= |s| && s[p..p + 2] == Pad2(m)
    ensures forall k :: 0 <= k < |MonthMatches(s, p)| ==> MonthMatches(s, p)[k].1 == p + 1
  {
    assert s[p] == Pad2(m)[0] && s[p + 1] == Pad2(m)[1];
  }

  /** A zero-padded day outside 1..31 leaves at least its second digit
      unmatched by the first day alternative. */
  lemma DayOutOfRange(s: string, p: nat, d: int)
    requires 0 <= d <= 99 && !(1 <= d <= 31) && p + 2 <= |s| && s[p..p + 2] == Pad2(d)
    ensures DayMatches(s, p) == [] || DayMatches(s, p)[0].1 == p + 1
  {
    assert s[p] == Pad2(d)[0] && s[p + 1] == Pad2(d)[1];
  }

  /** The month and day fields of a canonical spelling, from position 5. */
  predicate PaddedFields(s: string, m: int, d: int) {
    0 <= m <= 99 && 0 <= d <= 99 && |s| >= 10
    && s[5..7] == Pad2(m) && s[7] == '-' && s[8..10] == Pad2(d)
  }

  /** A month outside 1..12 can never be continued by a day. */
  lemma MonthRejected(s: string, m: int, d: int)
    requires PaddedFields(s, m, d) && !(1 <= m <= 12)
    ensures FirstMatch(s, MonthMatches(s, 5)).None?
  {
    var ms := MonthMatches(s, 5);
    MonthOutOfRange(s, 5, m);
    assert IsDigit(s[6]);
    assert forall k :: 0 <= k < |ms| ==> !Continues(s, ms[k].1);
    FirstMatchIsFirstContinued(s, ms);
  }

  /** A day outside 1..31 leaves data over, or nothing matches at all. */
  lemma DayRejected(s: string, m: int, d: int)
    requires PaddedFields(s, m, d) && 1 <= m <= 12 && !(1 <= d <= 31)
    ensures FirstMatch(s, MonthMatches(s, 5)).None? || FirstMatch(s, MonthMatches(s, 5)).value.2 == 9
  {
    var ms := MonthMatches(s, 5);
    MonthOfPad2(s, 5, m);
    DayOutOfRange(s, 8, d);
    if DayMatches(s, 8) == [] {
      assert IsDigit(s[6]);
      assert forall k :: 0 <= k < |ms| ==> !Continues(s, ms[k].1);
      FirstMatchIsFirstContinued(s, ms);
    }
  }

  /** In-range month and day are matched whole. */
  lemma FieldsAccepted(s: string, m: int, d: int)
    requires PaddedFields(s, m, d) && 1 <= m <= 12 && 1 <= d <= 31
    ensures FirstMatch(s, MonthMatches(s, 5)) == Some((m, d, 10))
  {
    MonthOfPad2(s, 5, m);
    DayOfPad2(s, 8, d);
  }

  /** How the date part of a string that starts with a canonical spelling
      is matched: the match covers all ten characters exactly when month
      and day are in range, and then it yields them. */
  lemma CanonicalMatch(s: string, d: Date)
    requires Spellable(d) && |s| >= 10 && s[..10] == FormatDate(d)
    ensures 1 <= d.month <= 12 && 1 <= d.day <= 31 ==> FirstMatch(s, MonthMatches(s, 5)) == Some((d.month, d.day, 10))
    ensures !(1 <= d.month <= 12 && 1 <= d.day <= 31) ==>
      FirstMatch(s, MonthMatches(s, 5)).None? || FirstMatch(s, MonthMatches(s, 5)).value.2 < 10
  {
    assert s[5..7] == s[..10][5..7] && s[8..10] == s[..10][8..10];
    assert PaddedFields(s, d.month, d.day);
    if !(1 <= d.month <= 12) {
      MonthRejected(s, d.month, d.day);
    } else if !(1 <= d.day <= 31) {
      DayRejected(s, d.month, d.day);
    } else {
      FieldsAccepted(s, d.month, d.day);
    }
  }

  /** Among zero-padded `YYYY-MM-DD` spellings strptime accepts exactly
      the valid dates, and each parses back to the date it spells. */
  lemma FormatParseRoundTrip(d: Date)
    requires Spellable(d)
    ensures ParseDate(FormatDate(d)) == if ValidDate(d) then Some(d) else None
  {
    var s := FormatDate(d);
    assert |s| == 10 && s[4] == '-' && s[..10] == s;
    assert s[..4] == Pad4(d.year);
    YearOfPad4(s, d.year);
    CanonicalMatch(s, d);
  }

  /** Month and day need not be zero-padded, and the day may be padded with a space. */
  lemma UnpaddedExamples()
    ensures ParseDate("2023-1-5") == Some(Date(2023, 1, 5))
    ensures ParseDate("2023-12- 1") == Some(Date(2023, 12, 1))
  {
  }

  /** 29 February exists in leap years only. */
  lemma LeapDayExamples()
    ensures ParseDate("2024-02-29") == Some(Date(2024, 2, 29))
    ensures !DateOk("2023-02-29")
  {
    assert FormatDate(Date(2024, 2, 29)) == "2024-02-29";
    FormatParseRoundTrip(Date(2024, 2, 29));
    assert FormatDate(Date(2023, 2, 29)) == "2023-02-29";
    FormatParseRoundTrip(Date(2023, 2, 29));
  }

  /** A century year is a leap year only when divisible by 400. */
  lemma CenturyLeapDayExamples()
    ensures !DateOk("1900-02-29") && DateOk("2000-02-29")
  {
    assert FormatDate(Date(1900, 2, 29)) == "1900-02-29";
    FormatParseRoundTrip(Date(1900, 2, 29));
    assert FormatDate(Date(2000, 2, 29)) == "2000-02-29";
    FormatParseRoundTrip(Date(2000, 2, 29));
  }

  /** Year 0 does not exist. */
  lemma YearZeroRejected()
    ensures !DateOk("0000-01-01")
  {
    assert FormatDate(Date(0, 1, 1)) == "0000-01-01";
    FormatParseRoundTrip(Date(0, 1, 1));
  }

  /** Month `00` or `13` and day `00` or `32` are rejected. */
  lemma OutOfRangeExamples()
    ensures !DateOk("2023-13-01") && !DateOk("2023-00-10")
    ensures !DateOk("2023-05-00") && !DateOk("2023-05-32")
  {
    assert FormatDate(Date(2023, 13, 1)) == "2023-13-01";
    assert FormatDate(Date(2023, 0, 10)) == "2023-00-10";
    assert FormatDate(Date(2023, 5, 0)) == "2023-05-00";
    assert FormatDate(Date(2023, 5, 32)) == "2023-05-32";
    FormatParseRoundTrip(Date(2023, 13, 1));
    FormatParseRoundTrip(Date(2023, 0, 10));
    FormatParseRoundTrip(Date(2023, 5, 0));
    FormatParseRoundTrip(Date(2023, 5, 32));
  }

  lemma RejectedExamples()
    ensures !DateOk("2023-13-40") && !DateOk("Dec 1")
  {
  }

  /** Anything after a zero-padded spelling makes strptime reject it: as
      unconverted data when month and day are in range, otherwise because
      the match fails or stops before the end. */
  lemma {:induction false} TrailingDataRejected(d: Date, rest: string)
    requires Spellable(d) && rest != ""
    ensures !DateOk(FormatDate(d) + rest)
  {
    var s := FormatDate(d) + rest;
    assert s[4] == '-' && s[..10] == FormatDate(d);
    assert s[..4] == Pad4(d.year);
    YearOfPad4(s, d.year);
    CanonicalMatch(s, d);
  }

  lemma LeftoverRejectedExamples()
    ensures !DateOk("2023-12-011") && !DateOk("2023-12-01 ")
  {
    assert FormatDate(Date(2023, 12, 1)) == "2023-12-01";
    assert "2023-12-011" == FormatDate(Date(2023, 12, 1)) + "1";
    assert "2023-12-01 " == FormatDate(Date(2023, 12, 1)) + " ";
    TrailingDataRejected(Date(2023, 12, 1), "1");
    TrailingDataRejected(Date(2023, 12, 1), " ");
  }
}
