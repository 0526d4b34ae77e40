/** Calendar dates as the script meets them: the dates datetime.datetime
    accepts, the `fecha` form field written with strftime('%d-%m-%y'), and the
    date cells read back by pd.to_datetime(..., format='%d-%m-%y '). */
module Dates {
  import opened Results
  import opened Text

  datatype Date = Date(year: int, month: int, day: int)

  predicate IsLeap(y: int) {
    y % 4 == 0 && (y % 100 != 0 || y % 400 == 0)
  }

  function DaysInMonth(y: int, m: int): (n: nat)
    requires 1 <= m <= 12
    ensures 28 <= n <= 31
    ensures n == 31 <==> m in {1, 3, 5, 7, 8, 10, 12}
  {
    if m == 2 then (if IsLeap(y) then 29 else 28)
    else if m in {4, 6, 9, 11} then 30
    else 31
  }

  /** What datetime.datetime(y, m, d) accepts (MINYEAR 1, MAXYEAR 9999):
      no month has more than 31 days, every month has days 1 .. 28, and
      29 February exists only in leap years. */
  predicate ValidDate(y: int, m: int, d: int)
    ensures ValidDate(y, m, d) ==> 1 <= d <= 31
    ensures 1 <= y <= 9999 && 1 <= m <= 12 && 1 <= d <= 28 ==> ValidDate(y, m, d)
    ensures m == 2 && d == 29 ==> (ValidDate(y, m, d) <==> 1 <= y <= 9999 && IsLeap(y))
  {
    1 <= y <= 9999 && 1 <= m <= 12 && 1 <= d <= DaysInMonth(y, m)
  }

  /** A number below 100 as two digits, zero-padded. */
  function Pad2(n: nat): (s: string)
    requires n < 100
    ensures |s| == 2 && AllDigits(s) && DigitsValue(s) == n
  {
    var s := [DigitChar(n / 10), DigitChar(n % 10)];
    TwoDigitsValue(s);
    s
  }

  /** strftime('%d-%m-%y'): the value of the `fecha` field of every probe. */
  function FormatFecha(y: int, m: int, d: int): (s: string)
    requires ValidDate(y, m, d)
    ensures |s| == 8 && s[2] == '-' && s[5] == '-'
    ensures AllDigits(s[..2]) && AllDigits(s[3..5]) && AllDigits(s[6..])
  {
    Pad2(d) + "-" + Pad2(m) + "-" + Pad2(y % 100)
  }

  /** Index of the first `c` in `s`, or |s| when there is none. */
  function Find(s: string, c: char): (k: nat)
    ensures k <= |s|
    ensures k < |s| ==> s[k] == c
    ensures forall j :: 0 <= j < k ==> s[j] != c
  {
    if s == [] then 0 else if s[0] == c then 0 else 1 + Find(s[1..], c)
  }

  lemma FindAt(s: string, c: char, k: nat)
    requires k < |s| && s[k] == c
    requires forall j :: 0 <= j < k ==> s[j] != c
    ensures Find(s, c) == k
  {
  }

  /** strptime's `%d`: 3[01] | [12]\d | 0[1-9] | [1-9] | ' '[1-9]. */
  function DayField(f: string): (r: Option<int>)
    ensures r.Some? ==> 1 <= r.value <= 31
  {
    if |f| == 2 && IsDigit(f[0]) && IsDigit(f[1]) then
      (if 1 <= DigitsValue(f) <= 31 then Some(DigitsValue(f)) else None)
    else if |f| == 2 && f[0] == ' ' && IsDigit(f[1]) && f[1] != '0' then Some(DigitValue(f[1]))
    else if |f| == 1 && IsDigit(f[0]) && f[0] != '0' then Some(DigitValue(f[0]))
    else None
  }

  /** strptime's `%m`: 1[0-2] | 0[1-9] | [1-9]. */
  function MonthField(f: string): (r: Option<int>)
    ensures r.Some? ==> 1 <= r.value <= 12
  {
    if |f| == 2 && IsDigit(f[0]) && IsDigit(f[1]) then
      (if 1 <= DigitsValue(f) <= 12 then Some(DigitsValue(f)) else None)
    else if |f| == 1 && IsDigit(f[0]) && f[0] != '0' then Some(DigitValue(f[0]))
    else None
  }

  /** strptime's `%y`: 00..68 are 2000..2068, 69..99 are 1969..1999. */
  function Century(yy: nat): (y: int)
    requires yy < 100
    ensures 1969 <= y <= 2068 && y % 100 == yy
  {
    if yy <= 68 then 2000 + yy else 1900 + yy
  }

  /** pd.to_datetime(cell, format='%d-%m-%y '): the whole cell must match the
      three fields separated by '-', followed by one or more whitespace
      characters, and name a real calendar day; None where it raises. */
  function ParseCellDate(s: string): (r: Option<Date>)
    ensures r.Some? ==> ValidDate(r.value.year, r.value.month, r.value.day)
    ensures r.Some? ==> 1969 <= r.value.year <= 2068
  {
    var i := Find(s, '-');
    if i == |s| then None
    else
      var rest := s[i + 1..];
      var j := Find(rest, '-');
      if j == |rest| then None
      else
        var tail := rest[j + 1..];
        match (DayField(s[..i]), MonthField(rest[..j]))
        case (Some(d), Some(m)) =>
          if |tail| >= 3 && IsDigit(tail[0]) && IsDigit(tail[1]) && AllSpace(tail[2..]) then
            TwoDigitsValue(tail[..2]);
            var y := Century(DigitsValue(tail[..2]));
            if d <= DaysInMonth(y, m) then Some(Date(y, m, d)) else None
          else None
        case _ => None
  }

  /** A date written with the request format and followed by whitespace reads
      back as the same date, for the century '%y' reconstructs. */
  lemma FormatThenParse(y: int, m: int, d: int, gap: string)
    requires ValidDate(y, m, d) && 1969 <= y <= 2068
    requires |gap| > 0 && AllSpace(gap)
    ensures ParseCellDate(FormatFecha(y, m, d) + gap) == Some(Date(y, m, d))
  {
    var s := FormatFecha(y, m, d) + gap;
    assert s[..2] == Pad2(d);
    FindAt(s, '-', 2);
    var rest := s[3..];
    assert rest[..2] == Pad2(m);
    FindAt(rest, '-', 2);
    var tail := rest[3..];
    assert tail[..2] == Pad2(y % 100);
    assert tail[2..] == gap;
    assert DayField(s[..2]) == Some(d);
    assert MonthField(rest[..2]) == Some(m);
  }

  /** A cell holding only the request format, with no trailing whitespace,
      does not match '%d-%m-%y ' and makes the parse raise. */
  lemma FormatWithoutGapRejected(y: int, m: int, d: int)
    requires ValidDate(y, m, d)
    ensures ParseCellDate(FormatFecha(y, m, d)) == None
  {
    var s := FormatFecha(y, m, d);
    FindAt(s, '-', 2);
    var rest := s[3..];
    FindAt(rest, '-', 2);
    assert |rest[3..]| == 2;
  }
}
