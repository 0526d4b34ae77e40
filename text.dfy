/** Python's str(int), int(str) and whitespace classes, as the script relies on
    them for URLs, chart titles and the form fields. Only ASCII digits are
    modelled. */
module Text {
  import opened Results

  /** Python's Unicode whitespace: str.isspace and the `\s` class of `re`. */
  predicate IsSpace(c: char) {
    || ('\t' <= c <= '\r')
    || ('\U{1C}' <= c <= '\U{1F}')
    || c == ' ' || c == '\U{85}' || c == '\U{A0}' || c == '\U{1680}'
    || ('\U{2000}' <= c <= '\U{200A}')
    || c == '\U{2028}' || c == '\U{2029}' || c == '\U{202F}' || c == '\U{205F}' || c == '\U{3000}'
  }

  /** The whitespace int() strips from a field. ASCII characters reach the
      C parser unchanged, and it strips only the C-locale whitespace, so the
      separators U+001C .. U+001F stay; other Unicode whitespace is first
      turned into ' '. */
  predicate IntSpace(c: char) {
    IsSpace(c) && !('\U{1C}' <= c <= '\U{1F}')
  }

  predicate AllSpace(s: string) {
    forall i :: 0 <= i < |s| ==> IsSpace(s[i])
  }

  predicate IsDigit(c: char) {
    '0' <= c <= '9'
  }

  predicate AllDigits(s: string) {
    forall i :: 0 <= i < |s| ==> IsDigit(s[i])
  }

  function DigitChar(d: nat): (c: char)
    requires d < 10
    ensures IsDigit(c)
  {
    ('0' as int + d) as char
  }

  function DigitValue(c: char): (d: nat)
    requires IsDigit(c)
    ensures d < 10 && DigitChar(d) == c
  {
    c as int - '0' as int
  }

  /** The number a run of decimal digits denotes. */
  function DigitsValue(s: string): nat
    requires AllDigits(s)
  {
    if s == [] then 0 else DigitsValue(s[..|s| - 1]) * 10 + DigitValue(s[|s| - 1])
  }

  lemma TwoDigitsValue(s: string)
    requires |s| == 2 && AllDigits(s)
    ensures DigitsValue(s) == 10 * DigitValue(s[0]) + DigitValue(s[1]) < 100
  {
    assert s[..1] == [s[0]] && s[..1][..0] == [];
    assert DigitsValue(s[..1]) == DigitValue(s[0]);
  }

  /** str(n) for n >= 0: decimal digits without a leading zero. */
  function NatToString(n: nat): (s: string)
    ensures |s| >= 1 && AllDigits(s)
    ensures |s| > 1 ==> s[0] != '0'
  {
    if n < 10 then [DigitChar(n)] else NatToString(n / 10) + [DigitChar(n % 10)]
  }

  lemma {:induction false} NatToStringValue(n: nat)
    ensures DigitsValue(NatToString(n)) == n
  {
    if n >= 10 {
      var s := NatToString(n);
      assert s[..|s| - 1] == NatToString(n / 10);
      NatToStringValue(n / 10);
    }
  }

  /** str(i): a minus sign exactly for negative i, then the decimal digits
      of |i| without a leading zero. */
  function IntToString(i: int): (s: string)
    ensures |s| >= 1 && (s[0] == '-' <==> i < 0)
    ensures var digits := if i < 0 then s[1..] else s;
      && |digits| >= 1 && AllDigits(digits) && (|digits| > 1 ==> digits[0] != '0')
      && DigitsValue(digits) == if i < 0 then -i else i
  {
    var n := if i < 0 then -i else i;
    NatToStringValue(n);
    assert ("-" + NatToString(n))[1..] == NatToString(n);
    if i < 0 then "-" + NatToString(n) else NatToString(n)
  }

  function StripLeft(s: string): (t: string)
    ensures |t| <= |s|
    ensures |t| > 0 ==> !IntSpace(t[0])
  {
    if |s| > 0 && IntSpace(s[0]) then StripLeft(s[1..]) else s
  }

  function StripRight(s: string): (t: string)
    ensures |t| <= |s|
    ensures |t| > 0 ==> !IntSpace(t[|t| - 1])
  {
    if |s| > 0 && IntSpace(s[|s| - 1]) then StripRight(s[..|s| - 1]) else s
  }

  /** s without its leading and trailing whitespace, as int() reads it. */
  function Strip(s: string): string {
    StripRight(StripLeft(s))
  }

  /** Digits with single underscores between them: what int() accepts after the sign. */
  predicate Grouped(s: string) {
    && |s| > 0 && IsDigit(s[0]) && IsDigit(s[|s| - 1])
    && (forall i :: 0 <= i < |s| ==> IsDigit(s[i]) || s[i] == '_')
    && (forall i, j :: 0 <= i < |s| && 0 <= j < |s| && j == i + 1 ==> !(s[i] == '_' && s[j] == '_'))
  }

  function DropUnderscores(s: string): (t: string)
    requires forall i :: 0 <= i < |s| ==> IsDigit(s[i]) || s[i] == '_'
    ensures AllDigits(t)
    ensures AllDigits(s) ==> t == s
  {
    if s == [] then []
    else if s[0] == '_' then DropUnderscores(s[1..])
    else [s[0]] + DropUnderscores(s[1..])
  }

  /** sys.int_info.default_max_str_digits: int() of a decimal string with
      more digits than this raises ValueError (CPython 3.11 and later). */
  const MaxStrDigits := 4300

  /** What int() accepts after the sign: digits grouped by single
      underscores, at most MaxStrDigits of them, read in base 10. */
  function ParseDigits(body: string): (r: Option<nat>)
    ensures AllDigits(body) && body != [] ==>
      r == if |body| <= MaxStrDigits then Some(DigitsValue(body)) else None
  {
    if !Grouped(body) then None
    else
      var digits := DropUnderscores(body);
      if |digits| > MaxStrDigits then None else Some(DigitsValue(digits))
  }

  /** int(s): None where Python raises ValueError. A run of ASCII digits is
      read as its decimal value unless it is longer than the digit limit. */
  function ParseInt(s: string): (r: Option<int>)
    ensures AllDigits(s) && s != [] ==>
      r == if |s| <= MaxStrDigits then Some(DigitsValue(s) as int) else None
  {
    var t := Strip(s);
    if |t| > 0 && t[0] == '-' then
      match ParseDigits(t[1..])
      case None => None
      case Some(n) => Some(-(n as int))
    else
      var body := if |t| > 0 && t[0] == '+' then t[1..] else t;
      match ParseDigits(body)
      case None => None
      case Some(n) => Some(n as int)
  }

  /** int() of a minus sign followed by the digits d is -int(d). */
  lemma ParseIntNegative(digits: string)
    requires AllDigits(digits) && digits != []
    ensures ParseDigits(digits).None? ==> ParseInt("-" + digits) == None
    ensures ParseDigits(digits).Some? ==>
      ParseInt("-" + digits).Some? && ParseInt("-" + digits).value == -(ParseDigits(digits).value as int)
  {
    SignedDigitsUnstripped(digits);
    var t := Strip("-" + digits);
    assert t[0] == '-';
    assert t[1..] == digits;
  }

  lemma SignedDigitsUnstripped(digits: string)
    requires AllDigits(digits) && digits != []
    ensures Strip("-" + digits) == "-" + digits
  {
    var s := "-" + digits;
    assert StripLeft(s) == s;
    assert s[|s| - 1] == digits[|digits| - 1];
  }

  /** int() reads back every str() of an integer short enough for the
      digit limit, and raises on the longer ones. */
  lemma IntToStringRoundTrip(i: int)
    ensures ParseInt(IntToString(i)) ==
      if |NatToString(if i < 0 then -i else i)| <= MaxStrDigits then Some(i) else None
  {
    if i < 0 {
      var digits := NatToString(-i);
      assert IntToString(i) == "-" + digits;
      ParseIntNegative(digits);
    }
  }

  /** Different integers have different str() forms. */
  lemma IntToStringInjective(i: int, j: int)
    requires IntToString(i) == IntToString(j)
    ensures i == j
  {
    var s := IntToString(i);
    if i < 0 {
      assert j < 0 && s[1..] == IntToString(j)[1..];
    }
  }

  lemma {:induction false} StripLeftKeepsSpace(s: string)
    requires AllSpace(s)
    ensures AllSpace(StripLeft(s))
  {
    if s != [] && IntSpace(s[0]) {
      StripLeftKeepsSpace(s[1..]);
    }
  }

  lemma {:induction false} StripRightKeepsSpace(s: string)
    requires AllSpace(s)
    ensures AllSpace(StripRight(s))
  {
    if s != [] && IntSpace(s[|s| - 1]) {
      StripRightKeepsSpace(s[..|s| - 1]);
    }
  }

  /** A field of whitespace only is not an integer: int() strips what it
      can, and any separator U+001C .. U+001F that is left is not a digit. */
  lemma ParseIntRejectsBlank(s: string)
    requires AllSpace(s)
    ensures ParseInt(s) == None
  {
    StripLeftKeepsSpace(s);
    StripRightKeepsSpace(StripLeft(s));
    var t := Strip(s);
    assert t != [] ==> IsSpace(t[0]) && !IsDigit(t[0]) && t[0] != '-' && t[0] != '+';
  }

  /** int() does not strip the separators U+001C .. U+001F: a field of
      digits behind one of them raises. */
  lemma ParseIntKeepsSeparator(sep: char, digits: string)
    requires '\U{1C}' <= sep <= '\U{1F}' && AllDigits(digits) && digits != []
    ensures ParseInt([sep] + digits) == None
  {
    var s := [sep] + digits;
    assert StripLeft(s) == s;
    assert s[|s| - 1] == digits[|digits| - 1];
    var t := Strip(s);
    assert t == s && t[0] == sep;
  }
}
