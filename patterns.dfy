/**
 * The fixed patterns of the catalog (PATTERNS in ccsv/detect_type.py:71-89),
 * each written as a recognizer of the language its regular expression
 * accepts under `fullmatch`, that is, of whole strings.
 */
module Patterns {
  import opened Unicode
  import opened Text

  /** Every character of `s` satisfies `p`. */
  predicate AllOf(s: string, p: char -> bool)
  {
    forall k | 0 <= k < |s| :: p(s[k])
  }

  lemma AllOfAt(s: string, p: char -> bool, i: int)
    requires AllOf(s, p) && 0 <= i < |s|
    ensures p(s[i])
  {
  }

  /** Length of the longest prefix of `s` whose characters satisfy `p`. */
  function LeadingCount(s: string, p: char -> bool): (n: nat)
    ensures n <= |s| && AllOf(s[..n], p) && (n < |s| ==> !p(s[n]))
  {
    if s != [] && p(s[0]) then 1 + LeadingCount(s[1..], p) else 0
  }

  lemma AllOfConcat(x: string, y: string, p: char -> bool)
    requires AllOf(x, p) && AllOf(y, p)
    ensures AllOf(x + y, p)
  {
    forall k | 0 <= k < |x + y| ensures p((x + y)[k]) {
      if k < |x| { AllOfAt(x, p, k); } else { AllOfAt(y, p, k - |x|); }
    }
  }

  lemma LeadingCountOf(x: string, y: string, p: char -> bool)
    requires AllOf(x, p) && (y == [] || !p(y[0]))
    ensures LeadingCount(x + y, p) == |x|
  {
    if x != [] {
      assert (x + y)[0] == x[0] && (x + y)[1..] == x[1..] + y;
      LeadingCountOf(x[1..], y, p);
    } else {
      assert x + y == y;
    }
  }

  predicate IsDigit(c: char) { IsDecimalDigit(c) }

  predicate IsSign(c: char) { c == '+' || c == '-' }

  // ---------------------------------------------------------------------
  // number_1 (line 72)
  // ---------------------------------------------------------------------

  /** The lookahead `(?=[+-\.\d])`: the class `+-\.` is the range from '+'
      to '.', which also holds ','. */
  predicate NumberLookahead(c: char) { '+' <= c <= '.' || IsDigit(c) }

  /** `[eE][+-]?\d+` */
  predicate Exponent(s: string)
  {
    && |s| >= 2 && (s[0] == 'e' || s[0] == 'E')
    && var d := if IsSign(s[1]) then s[2..] else s[1..];
       d != [] && AllOf(d, IsDigit)
  }

  /** `(?:0|[1-9]\d*)?` */
  predicate IntegerPart(s: string)
  {
    s == [] || s == "0" || ('1' <= s[0] <= '9' && AllOf(s[1..], IsDigit))
  }

  /** What may follow the dot: `\d*(\d+[eE][+-]?\d+)?`. An exponent does not
      start with a digit, so the digits before it are all leading digits. */
  predicate DotFraction(s: string)
  {
    var k := LeadingCount(s, IsDigit);
    k == |s| || (k > 0 && Exponent(s[k..]))
  }

  /** What may follow the comma: `\d+(\d+[eE][+-]?\d+)?`. */
  predicate CommaFraction(s: string)
  {
    var k := LeadingCount(s, IsDigit);
    (k == |s| && k > 0) || (k > 1 && Exponent(s[k..]))
  }

  /** The two conditional groups `(?(dot)…)` and `(?(comma)…)`, written as
      mutually exclusive alternatives: no separator and an optional exponent,
      a dot and a dot fraction, or a comma and a comma fraction. */
  predicate NumberTail(s: string)
  {
    || s == [] || Exponent(s)
    || (s[0] == '.' && DotFraction(s[1..]))
    || (s[0] == ',' && CommaFraction(s[1..]))
  }

  /** After the optional sign: the integer part is the run of leading
      digits, then the tail. */
  predicate NumberBody(r: string)
  {
    var k := LeadingCount(r, IsDigit);
    IntegerPart(r[..k]) && NumberTail(r[k..])
  }

  /** number_1, scanned left to right: optional sign, then the body. */
  predicate Number1(s: string)
  {
    && s != [] && NumberLookahead(s[0])
    && (if IsSign(s[0]) then NumberBody(s[1..]) else NumberBody(s))
  }

  // The same language, transcribed group by group with the split points
  // the regular expression is free to choose.

  ghost predicate OptionalSign(s: string) { s == [] || (|s| == 1 && IsSign(s[0])) }

  ghost predicate OptionalExponent(s: string) { s == [] || Exponent(s) }

  /** `\d*(\d+[eE][+-]?\d+)?` */
  ghost predicate DotGroup(s: string)
  {
    exists j | 0 <= j <= |s| ::
      && AllOf(s[..j], IsDigit)
      && (s[j..] == [] || exists m | j < m <= |s| :: AllOf(s[j..m], IsDigit) && Exponent(s[m..]))
  }

  /** `\d+(\d+[eE][+-]?\d+)?` */
  ghost predicate CommaGroup(s: string)
  {
    exists j | 0 < j <= |s| ::
      && AllOf(s[..j], IsDigit)
      && (s[j..] == [] || exists m | j < m <= |s| :: AllOf(s[j..m], IsDigit) && Exponent(s[m..]))
  }

  /** `(?P<dot>\.)?(?(dot)yes|no)` */
  ghost predicate DotBranch(s: string)
  {
    (s != [] && s[0] == '.' && DotGroup(s[1..])) || OptionalExponent(s)
  }

  /** `(?P<comma>,)?(?(comma)yes|no)` */
  ghost predicate CommaBranch(s: string)
  {
    (s != [] && s[0] == ',' && CommaGroup(s[1..])) || OptionalExponent(s)
  }

  ghost predicate Number1Regex(s: string)
  {
    && s != [] && NumberLookahead(s[0])
    && exists a, b {:trigger IntegerPart(s[a..b])} | 0 <= a <= b <= |s| ::
         OptionalSign(s[..a]) && IntegerPart(s[a..b]) && (DotBranch(s[b..]) || CommaBranch(s[b..]))
  }

  lemma ExponentStart(s: string)
    requires Exponent(s)
    ensures !IsDigit(s[0]) && !IsSign(s[0]) && s[0] != '.' && s[0] != ','
  {
  }

  /** Digits followed by an exponent: the digits are exactly the leading ones. */
  lemma DigitsBeforeExponent(s: string, j: nat, m: nat)
    requires j <= m <= |s| && AllOf(s[..j], IsDigit) && AllOf(s[j..m], IsDigit)
    requires Exponent(s[m..])
    ensures LeadingCount(s, IsDigit) == m
  {
    assert AllOf(s[..m], IsDigit) by {
      forall i | 0 <= i < m ensures IsDigit(s[..m][i]) {
        if i < j { assert s[..m][i] == s[..j][i]; } else { assert s[..m][i] == s[j..m][i - j]; }
      }
    }
    ExponentStart(s[m..]);
    LeadingCountOf(s[..m], s[m..], IsDigit);
    assert s[..m] + s[m..] == s;
  }

  lemma AllDigitsLeading(s: string)
    requires AllOf(s, IsDigit)
    ensures LeadingCount(s, IsDigit) == |s|
  {
    LeadingCountOf(s, [], IsDigit);
    assert s + [] == s;
  }

  lemma DotFractionToGroup(s: string)
    requires DotFraction(s)
    ensures DotGroup(s)
  {
    var k := LeadingCount(s, IsDigit);
    if k == |s| {
      assert s[k..] == [];
    } else {
      assert AllOf(s[0..k], IsDigit) && Exponent(s[k..]);
      assert AllOf(s[..0], IsDigit);
    }
  }

  lemma DotGroupToFraction(s: string)
    requires DotGroup(s)
    ensures DotFraction(s)
  {
    var j :| 0 <= j <= |s| && AllOf(s[..j], IsDigit)
      && (s[j..] == [] || exists m | j < m <= |s| :: AllOf(s[j..m], IsDigit) && Exponent(s[m..]));
    if s[j..] == [] {
      assert s[..j] == s;
      AllDigitsLeading(s);
    } else {
      var m :| j < m <= |s| && AllOf(s[j..m], IsDigit) && Exponent(s[m..]);
      DigitsBeforeExponent(s, j, m);
    }
  }

  lemma CommaFractionToGroup(s: string)
    requires CommaFraction(s)
    ensures CommaGroup(s)
  {
    var k := LeadingCount(s, IsDigit);
    if k == |s| && k > 0 {
      assert s[k..] == [];
    } else {
      assert AllOf(s[1..k], IsDigit) && Exponent(s[k..]);
      assert AllOf(s[..1], IsDigit);
    }
  }

  lemma CommaGroupToFraction(s: string)
    requires CommaGroup(s)
    ensures CommaFraction(s)
  {
    var j :| 0 < j <= |s| && AllOf(s[..j], IsDigit)
      && (s[j..] == [] || exists m | j < m <= |s| :: AllOf(s[j..m], IsDigit) && Exponent(s[m..]));
    if s[j..] == [] {
      assert s[..j] == s;
      AllDigitsLeading(s);
    } else {
      var m :| j < m <= |s| && AllOf(s[j..m], IsDigit) && Exponent(s[m..]);
      DigitsBeforeExponent(s, j, m);
    }
  }

  /** The tail of the scanning recognizer is the union of the two branches. */
  lemma NumberTailExact(t: string)
    ensures NumberTail(t) <==> DotBranch(t) || CommaBranch(t)
  {
    if t != [] {
      if DotFraction(t[1..]) { DotFractionToGroup(t[1..]); }
      if DotGroup(t[1..]) { DotGroupToFraction(t[1..]); }
      if CommaFraction(t[1..]) { CommaFractionToGroup(t[1..]); }
      if CommaGroup(t[1..]) { CommaGroupToFraction(t[1..]); }
    }
  }

  /** Nothing the integer part may be followed by starts with a digit. */
  lemma NumberTailStart(t: string)
    requires NumberTail(t) && t != []
    ensures !IsDigit(t[0]) && !IsSign(t[0])
  {
  }

  /** The scanning recognizer accepts exactly the language of number_1. */
  lemma Number1ToRegex(s: string)
    requires Number1(s)
    ensures Number1Regex(s)
  {
    var a := if IsSign(s[0]) then 1 else 0;
    var r := s[a..];
    assert NumberBody(r);
    var k := LeadingCount(r, IsDigit);
    assert r[..k] == s[a..a + k] && r[k..] == s[a + k..];
    NumberTailExact(r[k..]);
    assert OptionalSign(s[..a]) && IntegerPart(s[a..a + k]);
  }

  /** An integer part followed by a tail is scanned back into the same two. */
  lemma NumberBodyOf(x: string, y: string)
    requires IntegerPart(x) && NumberTail(y)
    ensures NumberBody(x + y)
  {
    assert AllOf(x, IsDigit);
    if y != [] { NumberTailStart(y); }
    LeadingCountOf(x, y, IsDigit);
    var r := x + y;
    assert r[..|x|] == x && r[|x|..] == y;
  }

  /** Without a sign, the integer part and the tail are scanned back. */
  lemma Number1Unsigned(x: string, y: string)
    requires IntegerPart(x) && NumberTail(y)
    requires x + y != [] && NumberLookahead((x + y)[0])
    ensures Number1(x + y)
  {
    NumberBodyOf(x, y);
    if x != [] {
      assert (x + y)[0] == x[0];
    } else {
      assert x + y == y;
      NumberTailStart(y);
    }
  }

  /** An integer part up to `k` and a tail from `k` make a number body. */
  lemma NumberBodyAt(r: string, k: nat)
    requires k <= |r| && IntegerPart(r[..k]) && NumberTail(r[k..])
    ensures NumberBody(r)
  {
    NumberBodyOf(r[..k], r[k..]);
    assert r[..k] + r[k..] == r;
  }

  /** With a sign, the integer part and the tail after it are scanned back. */
  lemma Number1Signed(s: string, b: nat)
    requires 1 <= b <= |s| && IsSign(s[0]) && IntegerPart(s[1..b]) && NumberTail(s[b..])
    ensures Number1(s)
  {
    var r := s[1..];
    assert r[..b - 1] == s[1..b] && r[b - 1..] == s[b..];
    NumberBodyAt(r, b - 1);
  }

  lemma RegexToNumber1(s: string, a: nat, b: nat)
    requires s != [] && NumberLookahead(s[0])
    requires a <= b <= |s| && OptionalSign(s[..a]) && IntegerPart(s[a..b])
    requires NumberTail(s[b..])
    ensures Number1(s)
  {
    if a == 0 {
      assert s == s[a..b] + s[b..];
      Number1Unsigned(s[a..b], s[b..]);
    } else {
      assert s[..a][0] == s[0];
      Number1Signed(s, b);
    }
  }

  /** The scanning recognizer accepts exactly the language of number_1. */
  lemma Number1Exact(s: string)
    ensures Number1(s) <==> Number1Regex(s)
  {
    if Number1(s) {
      Number1ToRegex(s);
    }
    if Number1Regex(s) {
      var a, b :| 0 <= a <= b <= |s| && OptionalSign(s[..a])
        && IntegerPart(s[a..b]) && (DotBranch(s[b..]) || CommaBranch(s[b..]));
      NumberTailExact(s[b..]);
      RegexToNumber1(s, a, b);
    }
  }

  // ---------------------------------------------------------------------
  // number_2 and number_3 (lines 73-74)
  // ---------------------------------------------------------------------

  /** `(?:<group>\d{3})+<decimal>\d*` */
  predicate Groups(s: string, group: char, decimal: char)
    decreases |s|
  {
    && |s| >= 5 && s[0] == group && AllOf(s[1..4], IsDigit)
    && ((s[4] == decimal && AllOf(s[5..], IsDigit)) || Groups(s[4..], group, decimal))
  }

  /** `[+-]?(?:[1-9]|[1-9]\d{0,2})(?:<group>\d{3})+<decimal>\d*` */
  predicate GroupedNumber(s: string, group: char, decimal: char)
  {
    var r := if s != [] && IsSign(s[0]) then s[1..] else s;
    exists k {:trigger Groups(r[k..], group, decimal)} | 1 <= k <= 3 ::
      k < |r| && '1' <= r[0] <= '9' && AllOf(r[1..k], IsDigit) && Groups(r[k..], group, decimal)
  }

  /** number_2: comma thousands separators, dot decimal separator. */
  predicate Number2(s: string) { GroupedNumber(s, ',', '.') }

  /** number_3: dot thousands separators, comma decimal separator. */
  predicate Number3(s: string) { GroupedNumber(s, '.', ',') }

  /** The characters any of the three number patterns may use. */
  predicate IsNumberChar(c: char)
  {
    IsDigit(c) || IsSign(c) || c == '.' || c == ',' || c == 'e' || c == 'E'
  }

  lemma GroupsChars(s: string, group: char, decimal: char)
    requires Groups(s, group, decimal) && IsNumberChar(group) && IsNumberChar(decimal)
    ensures AllOf(s, IsNumberChar)
    decreases |s|
  {
    if s[4] == decimal && AllOf(s[5..], IsDigit) {
    } else {
      GroupsChars(s[4..], group, decimal);
      assert forall k | 4 <= k < |s| :: s[k] == s[4..][k - 4];
    }
  }

  lemma ExponentChars(e: string)
    requires Exponent(e)
    ensures AllOf(e, IsNumberChar)
  {
    var a := if IsSign(e[1]) then 2 else 1;
    forall i | a <= i < |e| ensures IsDigit(e[i]) {
      AllOfAt(e[a..], IsDigit, i - a);
    }
  }

  /** The digits and exponent after a dot or a comma. */
  lemma FractionChars(u: string)
    requires DotFraction(u) || CommaFraction(u)
    ensures AllOf(u, IsNumberChar)
  {
    var k := LeadingCount(u, IsDigit);
    DigitsAreNumberChars(u[..k]);
    if k < |u| {
      ExponentChars(u[k..]);
    }
    AllOfConcat(u[..k], u[k..], IsNumberChar);
    assert u[..k] + u[k..] == u;
  }

  lemma TailChars(t: string)
    requires NumberTail(t)
    ensures AllOf(t, IsNumberChar)
  {
    if t != [] && (t[0] == '.' || t[0] == ',') {
      FractionChars(t[1..]);
      AllOfConcat(t[..1], t[1..], IsNumberChar);
      assert t[..1] + t[1..] == t;
    } else if t != [] {
      ExponentChars(t);
    }
  }

  lemma DigitsAreNumberChars(x: string)
    requires AllOf(x, IsDigit)
    ensures AllOf(x, IsNumberChar)
  {
    forall i | 0 <= i < |x| ensures IsNumberChar(x[i]) { AllOfAt(x, IsDigit, i); }
  }

  lemma NumberBodyChars(r: string)
    requires NumberBody(r)
    ensures AllOf(r, IsNumberChar)
  {
    var k := LeadingCount(r, IsDigit);
    var x, y := r[..k], r[k..];
    DigitsAreNumberChars(x);
    TailChars(y);
    AllOfConcat(x, y, IsNumberChar);
    assert x + y == r;
  }

  lemma Number1Chars(s: string)
    requires Number1(s)
    ensures AllOf(s, IsNumberChar)
  {
    if IsSign(s[0]) {
      NumberBodyChars(s[1..]);
      assert forall i | 1 <= i < |s| :: s[i] == s[1..][i - 1];
    } else {
      NumberBodyChars(s);
    }
  }

  lemma GroupedChars(s: string, group: char, decimal: char)
    requires GroupedNumber(s, group, decimal) && IsNumberChar(group) && IsNumberChar(decimal)
    ensures s != [] && AllOf(s, IsNumberChar) && !IsAsciiLetter(s[0])
  {
    var a := if s != [] && IsSign(s[0]) then 1 else 0;
    var r := s[a..];
    var k :| 1 <= k <= 3 && k < |r| && '1' <= r[0] <= '9' && AllOf(r[1..k], IsDigit)
      && Groups(r[k..], group, decimal);
    GroupsChars(r[k..], group, decimal);
    forall i | 0 <= i < |s| ensures IsNumberChar(s[i]) {
      if i < a {
        assert IsSign(s[i]);
      } else if i == a {
        assert s[i] == r[0];
      } else if i < a + k {
        assert s[i] == r[1..k][i - a - 1];
        AllOfAt(r[1..k], IsDigit, i - a - 1);
      } else {
        assert s[i] == r[k..][i - a - k];
        assert IsNumberChar(r[k..][i - a - k]);
      }
    }
  }

  /** Text accepted by a number pattern uses only digits, signs, the two
      separators and the exponent letters, and never starts with a letter. */
  lemma NumberChars(s: string)
    requires Number1(s) || Number2(s) || Number3(s)
    ensures s != [] && AllOf(s, IsNumberChar) && !IsAsciiLetter(s[0])
  {
    if Number1(s) {
      Number1Chars(s);
    } else if Number2(s) {
      GroupedChars(s, ',', '.');
    } else {
      GroupedChars(s, '.', ',');
    }
  }

  // ---------------------------------------------------------------------
  // time patterns (lines 82-86)
  // ---------------------------------------------------------------------

  /** `(0[0-9]|1[0-9]|2[0-3])`: an hour 00-23. */
  predicate Hour(s: string)
  {
    && |s| == 2
    && (((s[0] == '0' || s[0] == '1') && IsAsciiDigit(s[1])) || (s[0] == '2' && '0' <= s[1] <= '3'))
  }

  /** `[0-5][0-9]`: a minute or second 00-59. */
  predicate Sexagesimal(s: string)
  {
    |s| == 2 && '0' <= s[0] <= '5' && IsAsciiDigit(s[1])
  }

  /** time_hmm: `([0-9]|1[0-9]|2[0-3]):([0-5][0-9])` */
  predicate TimeHMM(s: string)
  {
    || (|s| == 4 && IsAsciiDigit(s[0]) && s[1] == ':' && Sexagesimal(s[2..]))
    || (&& |s| == 5
        && ((s[0] == '1' && IsAsciiDigit(s[1])) || (s[0] == '2' && '0' <= s[1] <= '3'))
        && s[2] == ':' && Sexagesimal(s[3..]))
  }

  /** time_hhmm: `(0[0-9]|1[0-9]|2[0-3]):([0-5][0-9])` */
  predicate TimeHHMM(s: string)
  {
    |s| == 5 && Hour(s[..2]) && s[2] == ':' && Sexagesimal(s[3..])
  }

  /** time_hhmmss: `(0[0-9]|1[0-9]|2[0-3]):([0-5][0-9]):([0-5][0-9])` */
  predicate TimeHHMMSS(s: string)
  {
    && |s| == 8 && Hour(s[..2]) && s[2] == ':'
    && Sexagesimal(s[3..5]) && s[5] == ':' && Sexagesimal(s[6..])
  }

  /** time_HHMM, and time_HH, whose text is the same:
      `(0[0-9]|1[0-9]|2[0-3])([0-5][0-9])` */
  predicate TimeCompact(s: string)
  {
    |s| == 4 && Hour(s[..2]) && Sexagesimal(s[2..])
  }

  /** The three forms `is_time` tries. */
  predicate TimeText(s: string)
  {
    TimeHMM(s) || TimeHHMM(s) || TimeHHMMSS(s)
  }

  function DigitChar(d: int): char
    requires 0 <= d < 10
  {
    ('0' as int + d) as char
  }

  /** A number below 100 written with two digits. */
  function TwoDigits(n: int): string
    requires 0 <= n < 100
  {
    [DigitChar(n / 10), DigitChar(n % 10)]
  }

  /** The clock readings written as H:MM, HH:MM or HH:MM:SS. */
  ghost predicate ClockText(s: string)
  {
    || (exists h, m | 0 <= h < 10 && 0 <= m < 60 :: s == [DigitChar(h)] + ":" + TwoDigits(m))
    || (exists h, m | 0 <= h < 24 && 0 <= m < 60 :: s == TwoDigits(h) + ":" + TwoDigits(m))
    || (exists h, m, sec | 0 <= h < 24 && 0 <= m < 60 && 0 <= sec < 60 ::
          s == TwoDigits(h) + ":" + TwoDigits(m) + ":" + TwoDigits(sec))
  }

  function DigitValue(c: char): int
    requires IsAsciiDigit(c)
  {
    c as int - '0' as int
  }

  lemma TwoDigitsOf(s: string)
    requires |s| == 2 && IsAsciiDigit(s[0]) && IsAsciiDigit(s[1])
    ensures var n := 10 * DigitValue(s[0]) + DigitValue(s[1]);
      0 <= n < 100 && TwoDigits(n) == s
  {
  }

  lemma HourOf(s: string)
    requires Hour(s)
    ensures var n := 10 * DigitValue(s[0]) + DigitValue(s[1]);
      0 <= n < 24 && TwoDigits(n) == s
  {
    TwoDigitsOf(s);
  }

  lemma SexagesimalOf(s: string)
    requires Sexagesimal(s)
    ensures var n := 10 * DigitValue(s[0]) + DigitValue(s[1]);
      0 <= n < 60 && TwoDigits(n) == s
  {
    TwoDigitsOf(s);
  }

  lemma HourText(h: int)
    requires 0 <= h < 24
    ensures Hour(TwoDigits(h))
  {
  }

  lemma SexagesimalText(m: int)
    requires 0 <= m < 60
    ensures Sexagesimal(TwoDigits(m))
  {
  }

  lemma ShortTimeIsClock(s: string)
    requires TimeHMM(s) && |s| == 4
    ensures exists h, m | 0 <= h < 10 && 0 <= m < 60 :: s == [DigitChar(h)] + ":" + TwoDigits(m)
  {
    var h := DigitValue(s[0]);
    SexagesimalOf(s[2..]);
    var m := 10 * DigitValue(s[2]) + DigitValue(s[3]);
    assert s == [DigitChar(h)] + ":" + TwoDigits(m);
  }

  lemma HourMinuteIsClock(s: string)
    requires |s| == 5 && Hour(s[..2]) && s[2] == ':' && Sexagesimal(s[3..])
    ensures exists h, m | 0 <= h < 24 && 0 <= m < 60 :: s == TwoDigits(h) + ":" + TwoDigits(m)
  {
    HourOf(s[..2]);
    SexagesimalOf(s[3..]);
    var h := 10 * DigitValue(s[0]) + DigitValue(s[1]);
    var m := 10 * DigitValue(s[3]) + DigitValue(s[4]);
    assert s == TwoDigits(h) + ":" + TwoDigits(m);
  }

  lemma FullTimeIsClock(s: string)
    requires TimeHHMMSS(s)
    ensures exists h, m, sec | 0 <= h < 24 && 0 <= m < 60 && 0 <= sec < 60 ::
      s == TwoDigits(h) + ":" + TwoDigits(m) + ":" + TwoDigits(sec)
  {
    HourOf(s[..2]);
    SexagesimalOf(s[3..5]);
    SexagesimalOf(s[6..]);
    var h := 10 * DigitValue(s[0]) + DigitValue(s[1]);
    var m := 10 * DigitValue(s[3]) + DigitValue(s[4]);
    var sec := 10 * DigitValue(s[6]) + DigitValue(s[7]);
    assert s == TwoDigits(h) + ":" + TwoDigits(m) + ":" + TwoDigits(sec);
  }

  lemma ShortClockIsTime(h: int, m: int)
    requires 0 <= h < 10 && 0 <= m < 60
    ensures TimeHMM([DigitChar(h)] + ":" + TwoDigits(m))
  {
    var s := [DigitChar(h)] + ":" + TwoDigits(m);
    SexagesimalText(m);
    assert s[2..] == TwoDigits(m);
  }

  lemma HourMinuteClockIsTime(h: int, m: int)
    requires 0 <= h < 24 && 0 <= m < 60
    ensures TimeHHMM(TwoDigits(h) + ":" + TwoDigits(m))
  {
    var s := TwoDigits(h) + ":" + TwoDigits(m);
    HourText(h);
    SexagesimalText(m);
    assert s[..2] == TwoDigits(h) && s[3..] == TwoDigits(m);
  }

  lemma FullClockIsTime(h: int, m: int, sec: int)
    requires 0 <= h < 24 && 0 <= m < 60 && 0 <= sec < 60
    ensures TimeHHMMSS(TwoDigits(h) + ":" + TwoDigits(m) + ":" + TwoDigits(sec))
  {
    var s := TwoDigits(h) + ":" + TwoDigits(m) + ":" + TwoDigits(sec);
    HourText(h);
    SexagesimalText(m);
    SexagesimalText(sec);
    assert s[..2] == TwoDigits(h) && s[3..5] == TwoDigits(m) && s[6..] == TwoDigits(sec);
  }

  /** `is_time` accepts exactly the clock readings H:MM (one-digit hour),
      HH:MM and HH:MM:SS with the hour below 24 and minutes and seconds
      below 60. */
  lemma TimeTextIsClock(s: string)
    ensures TimeText(s) <==> ClockText(s)
  {
    if TimeText(s) {
      TimeTextToClock(s);
    }
    if ClockText(s) {
      ClockToTimeText(s);
    }
  }

  lemma TimeTextToClock(s: string)
    requires TimeText(s)
    ensures ClockText(s)
  {
    if TimeHMM(s) && |s| == 4 {
      ShortTimeIsClock(s);
    } else if TimeHHMM(s) || TimeHMM(s) {
      HourMinuteIsClock(s);
    } else {
      FullTimeIsClock(s);
    }
  }

  lemma ClockToTimeText(s: string)
    requires ClockText(s)
    ensures TimeText(s)
  {
    if h, m :| 0 <= h < 10 && 0 <= m < 60 && s == [DigitChar(h)] + ":" + TwoDigits(m) {
      ShortClockIsTime(h, m);
    } else if h, m :| 0 <= h < 24 && 0 <= m < 60 && s == TwoDigits(h) + ":" + TwoDigits(m) {
      HourMinuteClockIsTime(h, m);
    } else {
      var h, m, sec :| 0 <= h < 24 && 0 <= m < 60 && 0 <= sec < 60
        && s == TwoDigits(h) + ":" + TwoDigits(m) + ":" + TwoDigits(sec);
      FullClockIsTime(h, m, sec);
    }
  }

  // ---------------------------------------------------------------------
  // currency (line 87)
  // ---------------------------------------------------------------------

  /** The text captured by group 1 of `\p{Sc}\s?(.*)` under fullmatch, if the
      pattern matches. `.` matches anything but a newline; the greedy `\s?`
      takes the character after the symbol when it is whitespace and gives
      it back only if the rest could not be matched without it. */
  function CurrencyGroup(s: string): Option<string>
  {
    if s == [] || !IsCurrencySymbol(s[0]) then None
    else if |s| >= 2 && IsWhitespace(s[1]) && '\n' !in s[2..] then Some(s[2..])
    else if '\n' !in s[1..] then Some(s[1..])
    else None
  }

  // ---------------------------------------------------------------------
  // unicode_alphanum (lines 77-81)
  // ---------------------------------------------------------------------

  /** The class `[\p{N}\p{L}\ <specials>]`. */
  predicate IsTokenChar(c: char)
  {
    IsNumeric(c) || IsLetter(c) || c == ' ' || IsSpecialAllowed(c)
  }

  /** unicode_alphanum: `\p{N}+\p{L}+[C]*|\p{L}+[C]+` with C the token
      characters. Numbers and letters are disjoint, so the run of numbers is
      the longest one; letters are token characters, so `\p{L}+[C]*` is one
      letter then token characters and `\p{L}+[C]+` is one letter then at
      least one token character. */
  predicate UnicodeAlphanum(s: string)
  {
    || (&& s != [] && IsNumeric(s[0])
        && var k := LeadingCount(s, IsNumeric);
           k < |s| && IsLetter(s[k]) && AllOf(s[k + 1..], IsTokenChar))
    || (|s| >= 2 && IsLetter(s[0]) && AllOf(s[1..], IsTokenChar))
  }

  /** The same language with the split points the regular expression chooses. */
  ghost predicate UnicodeAlphanumRegex(s: string)
  {
    || (exists i, j | 0 < i < j <= |s| ::
          AllOf(s[..i], IsNumeric) && AllOf(s[i..j], IsLetter) && AllOf(s[j..], IsTokenChar))
    || (exists i | 0 < i < |s| :: AllOf(s[..i], IsLetter) && AllOf(s[i..], IsTokenChar))
  }

  lemma TokenCharsJoin(s: string, i: nat)
    requires i <= |s| && AllOf(s[..i], IsTokenChar) && AllOf(s[i..], IsTokenChar)
    ensures AllOf(s, IsTokenChar)
  {
    forall k | 0 <= k < |s| ensures IsTokenChar(s[k]) {
      if k < i { AllOfAt(s[..i], IsTokenChar, k); } else { AllOfAt(s[i..], IsTokenChar, k - i); }
    }
  }

  lemma LettersAreTokenChars(s: string)
    requires AllOf(s, IsLetter)
    ensures AllOf(s, IsTokenChar)
  {
    forall k | 0 <= k < |s| ensures IsTokenChar(s[k]) { AllOfAt(s, IsLetter, k); }
  }

  lemma NumberLedRegexAt(s: string, i: int, j: int)
    requires 0 < i < j <= |s|
    requires AllOf(s[..i], IsNumeric) && AllOf(s[i..j], IsLetter) && AllOf(s[j..], IsTokenChar)
    ensures UnicodeAlphanumRegex(s)
  {
  }

  lemma NumberLedToRegex(s: string)
    requires s != [] && IsNumeric(s[0])
    requires var k := LeadingCount(s, IsNumeric);
      k < |s| && IsLetter(s[k]) && AllOf(s[k + 1..], IsTokenChar)
    ensures UnicodeAlphanumRegex(s)
  {
    var k := LeadingCount(s, IsNumeric);
    assert k > 0;
    assert AllOf(s[k..k + 1], IsLetter) by { assert s[k..k + 1] == [s[k]]; }
    NumberLedRegexAt(s, k, k + 1);
  }

  lemma NumberLedFromRegex(s: string, i: int, j: int)
    requires 0 < i < j <= |s|
    requires AllOf(s[..i], IsNumeric) && AllOf(s[i..j], IsLetter) && AllOf(s[j..], IsTokenChar)
    ensures var k := LeadingCount(s, IsNumeric);
      k < |s| && IsLetter(s[k]) && AllOf(s[k + 1..], IsTokenChar)
  {
    NumericRunEnds(s, i, j);
    LettersThenTokens(s[i + 1..], s[i + 1..j], s[j..]);
  }

  /** The run of numbers ends where the letters start. */
  lemma NumericRunEnds(s: string, i: int, j: int)
    requires 0 < i < j <= |s|
    requires AllOf(s[..i], IsNumeric) && AllOf(s[i..j], IsLetter)
    ensures LeadingCount(s, IsNumeric) == i && IsLetter(s[i])
    ensures s[i + 1..] == s[i + 1..j] + s[j..] && AllOf(s[i + 1..j], IsLetter)
  {
    FirstLetter(s, i, j);
    NumericRunLength(s, i);
    LetterRunRest(s, i, j);
  }

  lemma FirstLetter(s: string, i: int, j: int)
    requires 0 <= i < j <= |s| && AllOf(s[i..j], IsLetter)
    ensures IsLetter(s[i]) && !IsNumeric(s[i])
  {
    AllOfAt(s[i..j], IsLetter, 0);
    assert s[i..j][0] == s[i];
    ClassRelations(s[i]);
  }

  lemma NumericRunLength(s: string, i: int)
    requires 0 <= i < |s| && AllOf(s[..i], IsNumeric) && !IsNumeric(s[i])
    ensures LeadingCount(s, IsNumeric) == i
  {
    assert s[..i] + s[i..] == s;
    assert s[i..][0] == s[i];
    LeadingCountOf(s[..i], s[i..], IsNumeric);
  }

  lemma LetterRunRest(s: string, i: int, j: int)
    requires 0 <= i < j <= |s| && AllOf(s[i..j], IsLetter)
    ensures s[i + 1..] == s[i + 1..j] + s[j..] && AllOf(s[i + 1..j], IsLetter)
  {
    assert s[i + 1..j] == s[i..j][1..];
  }

  /** A run of numbers, a letter, then token characters: the number-led
      alternative of unicode_alphanum. */
  lemma NumbersThenLetterAt(s: string, w: int)
    requires 0 < w < |s| && AllOf(s[..w], IsNumeric) && IsLetter(s[w])
    requires AllOf(s[w + 1..], IsTokenChar)
    ensures UnicodeAlphanum(s)
  {
    ClassRelations(s[w]);
    NumericRunLength(s, w);
    AllOfAt(s[..w], IsNumeric, 0);
  }

  lemma LettersThenTokens(r: string, x: string, y: string)
    requires r == x + y && AllOf(x, IsLetter) && AllOf(y, IsTokenChar)
    ensures AllOf(r, IsTokenChar)
  {
    LettersAreTokenChars(x);
    AllOfConcat(x, y, IsTokenChar);
  }

  lemma LetterLedFromRegex(s: string, i: int)
    requires 0 < i < |s| && AllOf(s[..i], IsLetter) && AllOf(s[i..], IsTokenChar)
    ensures IsLetter(s[0]) && AllOf(s[1..], IsTokenChar)
  {
    AllOfAt(s[..i], IsLetter, 0);
    LettersAreTokenChars(s[1..i]);
    assert s[1..] == s[1..i] + s[i..];
    TokenCharsJoin(s[1..], i - 1);
  }

  lemma AlphanumToRegex(s: string)
    requires UnicodeAlphanum(s)
    ensures UnicodeAlphanumRegex(s)
  {
    if s != [] && IsNumeric(s[0]) && NumbersThenLetter(s) {
      NumberLedToRegex(s);
    } else {
      assert |s| >= 2 && IsLetter(s[0]) && AllOf(s[1..], IsTokenChar);
      assert AllOf(s[..1], IsLetter);
    }
  }

  /** The number-led alternative of UnicodeAlphanum. */
  predicate NumbersThenLetter(s: string)
  {
    var k := LeadingCount(s, IsNumeric);
    k < |s| && IsLetter(s[k]) && AllOf(s[k + 1..], IsTokenChar)
  }

  lemma NumberLedToAlphanum(s: string, i: int, j: int)
    requires 0 < i < j <= |s|
    requires AllOf(s[..i], IsNumeric) && AllOf(s[i..j], IsLetter) && AllOf(s[j..], IsTokenChar)
    ensures UnicodeAlphanum(s)
  {
    AllOfAt(s[..i], IsNumeric, 0);
    NumberLedFromRegex(s, i, j);
  }

  lemma LetterLedToAlphanum(s: string, i: int)
    requires 0 < i < |s| && AllOf(s[..i], IsLetter) && AllOf(s[i..], IsTokenChar)
    ensures UnicodeAlphanum(s)
  {
    LetterLedFromRegex(s, i);
  }

  /** The scanning recognizer accepts exactly the language of unicode_alphanum. */
  lemma UnicodeAlphanumExact(s: string)
    ensures UnicodeAlphanum(s) <==> UnicodeAlphanumRegex(s)
  {
    if UnicodeAlphanum(s) {
      AlphanumToRegex(s);
    }
    if i, j :| 0 < i < j <= |s| && AllOf(s[..i], IsNumeric) && AllOf(s[i..j], IsLetter) && AllOf(s[j..], IsTokenChar) {
      NumberLedToAlphanum(s, i, j);
    }
    if i :| 0 < i < |s| && AllOf(s[..i], IsLetter) && AllOf(s[i..], IsTokenChar) {
      LetterLedToAlphanum(s, i);
    }
  }

  // ---------------------------------------------------------------------
  // email (line 76) and url (line 75)
  // ---------------------------------------------------------------------

  predicate IsEmailLocalChar(c: char)
  {
    IsAsciiLetter(c) || IsAsciiDigit(c) || c == '_' || c == '.' || c == '+' || c == '-'
  }

  predicate IsEmailDomainChar(c: char) { IsAsciiLetter(c) || IsAsciiDigit(c) || c == '-' }

  predicate IsEmailSuffixChar(c: char) { IsEmailDomainChar(c) || c == '.' }

  /** `[a-zA-Z0-9-]+\.[a-zA-Z0-9-.]+` */
  predicate EmailDomain(s: string)
  {
    exists j {:trigger AllOf(s[..j], IsEmailDomainChar)} | 0 < j < |s| - 1 ::
      s[j] == '.' && AllOf(s[..j], IsEmailDomainChar) && AllOf(s[j + 1..], IsEmailSuffixChar)
  }

  /** email: `^[a-zA-Z0-9_.+-]+@[a-zA-Z0-9-]+\.[a-zA-Z0-9-.]+$` */
  predicate Email(s: string)
  {
    exists i {:trigger AllOf(s[..i], IsEmailLocalChar)} | 0 < i < |s| :: s[i] == '@' && AllOf(s[..i], IsEmailLocalChar) && EmailDomain(s[i + 1..])
  }

  /** `[-;:&=\+\$,\w]` */
  predicate IsUserChar(c: char) { c in "-;:&=+$," || IsWordChar(c) }

  /** `[A-Za-z0-9.-]` */
  predicate IsHostChar(c: char) { IsAsciiLetter(c) || IsAsciiDigit(c) || c == '.' || c == '-' }

  /** `[\+~%\/.\w\-_]` */
  predicate IsPathChar(c: char) { c in "+~%/.-_" || IsWordChar(c) }

  /** `[-\+=&;%@.\w_]` */
  predicate IsQueryChar(c: char) { c in "-+=&;%@._" || IsWordChar(c) }

  /** `[A-Za-z]{3,9}:(?:\/\/)?` */
  predicate Scheme(s: string)
  {
    exists n {:trigger AllOf(s[..n], IsAsciiLetter)} | 3 <= n <= 9 ::
      n < |s| && AllOf(s[..n], IsAsciiLetter) && s[n] == ':' && (s[n + 1..] == "" || s[n + 1..] == "//")
  }

  /** `[-;:&=\+\$,\w]+@` */
  predicate UserInfo(s: string)
  {
    |s| >= 2 && s[|s| - 1] == '@' && AllOf(s[..|s| - 1], IsUserChar)
  }

  /** `[A-Za-z0-9.-]+` */
  predicate Host(s: string) { s != [] && AllOf(s, IsHostChar) }

  /** `www.`, whose unescaped dot stands for any character but a newline. */
  predicate Www(s: string) { |s| == 4 && s[..3] == "www" && s[3] != '\n' }

  /** `Scheme (UserInfo)? Host | (www. | UserInfo) Host` */
  predicate UrlHead(s: string)
  {
    || (exists a {:trigger Scheme(s[..a])} | 0 <= a <= |s| ::
          && Scheme(s[..a])
          && (Host(s[a..]) || exists b {:trigger UserInfo(s[a..b])} | a <= b <= |s| :: UserInfo(s[a..b]) && Host(s[b..])))
    || (exists b {:trigger Host(s[b..])} | 0 <= b <= |s| :: (Www(s[..b]) || UserInfo(s[..b])) && Host(s[b..]))
  }

  /** `(?:\/[\+~%\/.\w\-_]*)?` */
  predicate OptionalPath(s: string) { s == [] || (s[0] == '/' && AllOf(s[1..], IsPathChar)) }

  /** `#?(?:[\w]*)` */
  predicate Fragment(s: string)
  {
    AllOf(s, IsWordChar) || (s != [] && s[0] == '#' && AllOf(s[1..], IsWordChar))
  }

  /** `(?:[-\+=&;%@.\w_]*)#?(?:[\w]*)` */
  predicate QueryRest(s: string)
  {
    exists j {:trigger Fragment(s[j..])} | 0 <= j <= |s| :: AllOf(s[..j], IsQueryChar) && Fragment(s[j..])
  }

  /** `\??(?:[-\+=&;%@.\w_]*)#?(?:[\w]*)` */
  predicate QueryAndFragment(s: string)
  {
    (s != [] && s[0] == '?' && QueryRest(s[1..])) || QueryRest(s)
  }

  /** The optional tail after the host: path, query and fragment, each optional. */
  predicate UrlTail(s: string)
  {
    exists i {:trigger OptionalPath(s[..i])} | 0 <= i <= |s| :: OptionalPath(s[..i]) && QueryAndFragment(s[i..])
  }

  /** url */
  predicate Url(s: string)
  {
    exists k {:trigger UrlHead(s[..k])} | 0 <= k <= |s| :: UrlHead(s[..k]) && UrlTail(s[k..])
  }

  lemma UrlHeadShape(h: string)
    requires UrlHead(h)
    ensures '@' in h || (|h| >= 5 && IsAsciiLetter(h[0]) && IsAsciiLetter(h[1]) && IsAsciiLetter(h[2]))
  {
    if a :| (0 <= a <= |h| && Scheme(h[..a])
      && (Host(h[a..]) || exists b | a <= b <= |h| :: UserInfo(h[a..b]) && Host(h[b..]))) {
      var n :| 3 <= n <= 9 && n < |h[..a]| && AllOf(h[..a][..n], IsAsciiLetter) && h[..a][n] == ':'
        && (h[..a][n + 1..] == "" || h[..a][n + 1..] == "//");
      AllOfAt(h[..a][..n], IsAsciiLetter, 0);
      AllOfAt(h[..a][..n], IsAsciiLetter, 1);
      AllOfAt(h[..a][..n], IsAsciiLetter, 2);
      if !Host(h[a..]) {
        var b :| a <= b <= |h| && UserInfo(h[a..b]) && Host(h[b..]);
        assert h[b - 1] == h[a..b][b - a - 1];
      }
    } else {
      var b :| 0 <= b <= |h| && (Www(h[..b]) || UserInfo(h[..b])) && Host(h[b..]);
      if UserInfo(h[..b]) {
        assert h[b - 1] == h[..b][b - 1];
      } else {
        assert h[..3] == h[..b][..3];
      }
    }
  }

  /** Anything url or email accepts holds an '@' or starts with three ASCII
      letters and has at least five characters. */
  lemma UrlOrEmailShape(s: string)
    requires Url(s) || Email(s)
    ensures '@' in s || (|s| >= 5 && IsAsciiLetter(s[0]) && IsAsciiLetter(s[1]) && IsAsciiLetter(s[2]))
  {
    if Url(s) {
      var k :| 0 <= k <= |s| && UrlHead(s[..k]) && UrlTail(s[k..]);
      UrlHeadShape(s[..k]);
      if '@' in s[..k] {
        var i :| 0 <= i < k && s[..k][i] == '@';
        assert s[i] == '@';
      }
    }
  }

  /** A run of decimal digits led by a non-zero ASCII digit is a number_1
      integer. */
  lemma DigitRunIsNumber(s: string)
    requires s != [] && '1' <= s[0] <= '9' && AllOf(s[1..], IsDigit)
    ensures Number1(s)
  {
    assert AllOf(s, IsDigit) by {
      forall k | 0 <= k < |s| ensures IsDigit(s[k]) {
        if k > 0 { AllOfAt(s[1..], IsDigit, k - 1); }
      }
    }
    AllDigitsLeading(s);
    assert s[..|s|] == s;
  }
}
