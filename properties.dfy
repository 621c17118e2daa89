/**
 * Worked examples: particular cells, what the single tests say of them and
 * the type detect_type gives them, for a detector that strips spaces (the
 * setting of gen_known_type and type_score).
 *
 * Facts about one literal text are proved about the pattern recognizers
 * first; the tests of a cell are then reduced to them through `Prepared`.
 */
module Examples {
  import opened Text
  import opened Unicode
  import Patterns
  import opened DateFormats
  import opened CellTypes

  // ---------------------------------------------------------------------
  // helpers
  // ---------------------------------------------------------------------

  /** A text without spaces at its ends is left alone by stripping. */
  lemma Unpadded(s: string)
    requires s == [] || (s[0] != ' ' && s[|s| - 1] != ' ')
    ensures StripSpaces(s) == s
  {
    assert Spaces(0) + s + Spaces(0) == s;
    StripSpacesOfPadded(0, s, 0);
  }

  /** The tests of a detector that strips spaces, in terms of the stripped
      cell. */
  lemma Prepared(c: string)
    ensures var s := StripSpaces(c);
      && (IsEmpty(true, c) <==> s == [])
      && (IsUrlOrEmail(true, c) <==> Patterns.Url(s) || Patterns.Email(s))
      && (IsNumber(true, c) <==> c != [] && (Patterns.Number1(s) || Patterns.Number2(s) || Patterns.Number3(s)))
      && (IsTime(true, c) <==> Patterns.TimeText(s))
      && (IsPercentage(true, c) <==> EndsWith(s, '%') && IsNumber(true, RStripChar(s, '%')))
      && (IsCurrency(true, c) <==> Patterns.CurrencyGroup(s).Some? && IsNumber(true, Patterns.CurrencyGroup(s).value))
      && (IsUnicodeAlphanum(true, c) <==> Patterns.UnicodeAlphanum(s))
      && (IsNan(true, c) <==> LowerAscii(s) == "n/a")
      && (IsDate(true, c) <==> !IsNumber(true, c) && exists i | 0 <= i < DateFormatCount :: MatchFormat(DateFormatAt(i), s))
  {
  }

  /** A grouped number without sign: one to three leading digits, then the
      groups. */
  lemma UnsignedGrouped(s: string, group: char, decimal: char, k: nat)
    requires 1 <= k <= 3 && k < |s| && '1' <= s[0] <= '9'
    requires Patterns.AllOf(s[1..k], Patterns.IsDigit) && Patterns.Groups(s[k..], group, decimal)
    ensures Patterns.GroupedNumber(s, group, decimal)
  {
    assert !Patterns.IsSign(s[0]);
  }

  /** One group of three digits, the decimal separator and digits. */
  lemma LastGroup(s: string, group: char, decimal: char)
    requires |s| >= 5 && s[0] == group && s[4] == decimal
    requires forall k | 1 <= k < |s| && k != 4 :: Patterns.IsDigit(s[k])
    ensures Patterns.Groups(s, group, decimal)
  {
    assert Patterns.AllOf(s[1..4], Patterns.IsDigit);
    assert Patterns.AllOf(s[5..], Patterns.IsDigit);
  }

  /** ASCII digits, checked one character at a time. */
  predicate DigitText(s: string)
  {
    s == [] || (IsAsciiDigit(s[0]) && DigitText(s[1..]))
  }

  lemma {:induction false} DigitTextClasses(s: string)
    requires DigitText(s)
    ensures Patterns.AllOf(s, Patterns.IsDigit) && Patterns.AllOf(s, IsNumeric) && Patterns.AllOf(s, Patterns.IsTokenChar)
  {
    if s != [] {
      DigitTextClasses(s[1..]);
      ClassRelations(s[0]);
      forall k | 1 <= k < |s| ensures Patterns.IsDigit(s[k]) && IsNumeric(s[k]) {
        assert s[k] == s[1..][k - 1];
      }
    }
  }

  /** A run of digits has no letter, so it is not alphanumeric. */
  lemma DigitsNotAlphanum(s: string)
    requires Patterns.AllOf(s, Patterns.IsDigit)
    ensures !Patterns.UnicodeAlphanum(s)
  {
    if s != [] {
      ClassRelations(s[0]);
      var k := Patterns.LeadingCount(s, IsNumeric);
      if k < |s| {
        ClassRelations(s[k]);
      }
    }
  }

  /** Without a separator among its second to fourth characters, an
      unsigned text is not a grouped number. */
  lemma NotGrouped(s: string, group: char, decimal: char)
    requires |s| >= 4 && !Patterns.IsSign(s[0]) && s[1] != group && s[2] != group && s[3] != group
    ensures !Patterns.GroupedNumber(s, group, decimal)
  {
    forall k | 1 <= k <= 3 && k < |s| ensures !Patterns.Groups(s[k..], group, decimal) {
      assert s[k..][0] == s[k];
    }
  }

  /** A text that does not start with a digit matches no date pattern. */
  lemma NoDateFormat(s: string)
    requires s == [] || !IsDecimalDigit(s[0])
    ensures forall i | 0 <= i < DateFormatCount :: !MatchFormat(DateFormatAt(i), s)
  {
    forall i | 0 <= i < DateFormatCount ensures !MatchFormat(DateFormatAt(i), s) {
      if MatchFormat(DateFormatAt(i), s) {
        DateStartsWithDigit(i, s);
      }
    }
  }

  // ---------------------------------------------------------------------
  // numbers
  // ---------------------------------------------------------------------

  lemma ZeroText() ensures Patterns.Number1("0") {}
  lemma ZeroPrepared() ensures Prepare(true, "0") == "0" { Unpadded("0"); }
  lemma Zero() ensures IsNumber(true, "0") { ZeroText(); ZeroPrepared(); }

  lemma MinusTwelveText() ensures Patterns.Number1("-12") {}
  lemma MinusTwelvePrepared() ensures Prepare(true, "-12") == "-12" { Unpadded("-12"); }
  lemma MinusTwelve() ensures IsNumber(true, "-12") { MinusTwelveText(); MinusTwelvePrepared(); }

  lemma DotDecimalText() ensures Patterns.Number1("3.14") {}
  lemma DotDecimalPrepared() ensures Prepare(true, "3.14") == "3.14" { Unpadded("3.14"); }
  lemma DotDecimal() ensures IsNumber(true, "3.14") { DotDecimalText(); DotDecimalPrepared(); }

  lemma CommaDecimalText() ensures Patterns.Number1("3,14") {}
  lemma CommaDecimalPrepared() ensures Prepare(true, "3,14") == "3,14" { Unpadded("3,14"); }
  lemma CommaDecimal() ensures IsNumber(true, "3,14") { CommaDecimalText(); CommaDecimalPrepared(); }

  lemma WithExponentText() ensures Patterns.Number1("1e10") {}
  lemma WithExponentPrepared() ensures Prepare(true, "1e10") == "1e10" { Unpadded("1e10"); }
  lemma WithExponent() ensures IsNumber(true, "1e10") { WithExponentText(); WithExponentPrepared(); }

  /** "0", "-12", "3.14", "3,14" and "1e10" are numbers. */
  lemma PlainNumbers()
    ensures IsNumber(true, "0") && IsNumber(true, "-12") && IsNumber(true, "3.14")
    ensures IsNumber(true, "3,14") && IsNumber(true, "1e10")
  {
    Zero();
    MinusTwelve();
    DotDecimal();
    CommaDecimal();
    WithExponent();
  }

  lemma CommaGroupsTail() ensures Patterns.Groups(",234.56", ',', '.') { LastGroup(",234.56", ',', '.'); }
  lemma CommaGroupsSlices() ensures "1,234.56"[1..] == ",234.56" && "1,234.56"[1..1] == [] {}

  lemma CommaGroupsText()
    ensures Patterns.Number2("1,234.56")
  {
    CommaGroupsTail();
    CommaGroupsSlices();
    UnsignedGrouped("1,234.56", ',', '.', 1);
  }

  lemma CommaGroupsPrepared() ensures Prepare(true, "1,234.56") == "1,234.56" { Unpadded("1,234.56"); }
  lemma CommaGroupsMatch() ensures Patterns.Number2(Prepare(true, "1,234.56")) { CommaGroupsText(); CommaGroupsPrepared(); }
  lemma CommaGroups() ensures IsNumber(true, "1,234.56") { CommaGroupsMatch(); }

  lemma DotGroupsTail() ensures Patterns.Groups(".234,56", '.', ',') { LastGroup(".234,56", '.', ','); }
  lemma DotGroupsSlices() ensures "1.234,56"[1..] == ".234,56" && "1.234,56"[1..1] == [] {}

  lemma DotGroupsText()
    ensures Patterns.Number3("1.234,56")
  {
    DotGroupsTail();
    DotGroupsSlices();
    UnsignedGrouped("1.234,56", '.', ',', 1);
  }

  lemma DotGroupsPrepared() ensures Prepare(true, "1.234,56") == "1.234,56" { Unpadded("1.234,56"); }
  lemma DotGroupsMatch() ensures Patterns.Number3(Prepare(true, "1.234,56")) { DotGroupsText(); DotGroupsPrepared(); }
  lemma DotGroups() ensures IsNumber(true, "1.234,56") { DotGroupsMatch(); }

  /** "1,234.56" and "1.234,56" are numbers, with thousands groups. */
  lemma GroupedNumbers()
    ensures IsNumber(true, "1,234.56") && IsNumber(true, "1.234,56")
  {
    CommaGroups();
    DotGroups();
  }

  lemma LeadingZeroStripped() ensures StripSpaces("01") == "01" { Unpadded("01"); }

  lemma LeadingZeroText()
    ensures !Patterns.Number1("01") && !Patterns.Number2("01") && !Patterns.Number3("01")
  {
  }

  lemma LeadingZero() ensures !IsNumber(true, "01") { LeadingZeroStripped(); LeadingZeroText(); }

  /** The integer part "0" cannot be followed by more digits, and the
      empty cell is refused before any pattern is tried. */
  lemma NotNumbers()
    ensures !IsNumber(true, "01") && !IsNumber(true, "")
  {
    LeadingZero();
  }

  lemma LonePlusText() ensures Patterns.Number1("+") {}
  lemma LonePlusPrepared() ensures Prepare(true, "+") == "+" { Unpadded("+"); }
  lemma LonePlus() ensures IsNumber(true, "+") { LonePlusText(); LonePlusPrepared(); }

  lemma LoneMinusText() ensures Patterns.Number1("-") {}
  lemma LoneMinusPrepared() ensures Prepare(true, "-") == "-" { Unpadded("-"); }
  lemma LoneMinus() ensures IsNumber(true, "-") { LoneMinusText(); LoneMinusPrepared(); }

  lemma LoneDotText() ensures Patterns.Number1(".") {}
  lemma LoneDotPrepared() ensures Prepare(true, ".") == "." { Unpadded("."); }
  lemma LoneDot() ensures IsNumber(true, ".") { LoneDotText(); LoneDotPrepared(); }

  lemma LoneCommaText() ensures !Patterns.Number1(",") && !Patterns.Number2(",") && !Patterns.Number3(",") {}
  lemma LoneCommaPrepared() ensures Prepare(true, ",") == "," { Unpadded(","); }
  lemma LoneComma() ensures !IsNumber(true, ",") { LoneCommaText(); LoneCommaPrepared(); }

  lemma CommaFiveText() ensures Patterns.Number1(",5") {}
  lemma CommaFivePrepared() ensures Prepare(true, ",5") == ",5" { Unpadded(",5"); }
  lemma CommaFive() ensures IsNumber(true, ",5") { CommaFiveText(); CommaFivePrepared(); }


  /** A lone sign or dot is a number; a lone comma, which the lookahead
      admits, is not, because a comma needs a digit after it. */
  lemma LoneMarks()
    ensures IsNumber(true, "+") && IsNumber(true, "-") && IsNumber(true, ".")
    ensures !IsNumber(true, ",") && IsNumber(true, ",5")
  {
    LonePlus();
    LoneMinus();
    LoneDot();
    LoneComma();
    CommaFive();
  }

  // ---------------------------------------------------------------------
  // numbers and dates
  // ---------------------------------------------------------------------

  lemma YearFirstNumber() ensures Patterns.Number1("19990101") { Patterns.DigitRunIsNumber("19990101"); }

  lemma YearFirstFormat()
    ensures MatchFormat(DateFormatAt(44), "19990101")
  {
    CompactIndex(1, 0);
    var pieces := ["1999", "01", "01"];
    assert Concat(pieces) == "19990101";
    MatchFormatOfPieces(DateFormatAt(44), pieces);
  }

  lemma YearFirstStripped() ensures StripSpaces("19990101") == "19990101" { Unpadded("19990101"); }

  /** "19990101" fits the compact year-month-day pattern date_44, but it is a
      number, so it is labelled number. */
  lemma YearFirstIsNumber(c: string)
    requires c == "19990101"
    ensures MatchFormat(DateFormatAt(44), Prepare(true, c))
    ensures Detect(true, c) == Some(Number)
  {
    YearFirstNumber();
    YearFirstFormat();
    YearFirstStripped();
    Prepared(c);
    NumberIsLabelledNumber(true, c);
  }

  lemma DayFirstFormat()
    ensures MatchFormat(DateFormatAt(45), "01011999")
  {
    CompactIndex(1, 1);
    var pieces := ["01", "01", "1999"];
    assert Concat(pieces) == "01011999";
    MatchFormatOfPieces(DateFormatAt(45), pieces);
  }

  /** A text that starts with a digit and holds no `@` is neither a URL nor an e-mail. */
  lemma DigitLedNotUrlOrEmail(s: string)
    requires s != [] && '0' <= s[0] <= '9' && '@' !in s
    ensures !Patterns.Url(s) && !Patterns.Email(s)
  {
    if Patterns.Url(s) || Patterns.Email(s) {
      Patterns.UrlOrEmailShape(s);
    }
  }

  lemma DayFirstNotNumber()
    ensures !Patterns.Number1("01011999") && !Patterns.Number2("01011999") && !Patterns.Number3("01011999")
  {
  }

  lemma DayFirstNotTimeOrCurrency()
    ensures !Patterns.TimeText("01011999") && Patterns.CurrencyGroup("01011999") == None
  {
  }

  lemma DayFirstNotAlphanum()
    ensures !Patterns.UnicodeAlphanum("01011999")
  {
    DigitTextClasses("01011999");
    DigitsNotAlphanum("01011999");
  }

  lemma DayFirstNotOther()
    ensures !Patterns.Url("01011999") && !Patterns.Email("01011999")
    ensures !EndsWith("01011999", '%') && LowerAscii("01011999") != "n/a"
  {
    DigitLedNotUrlOrEmail("01011999");
  }

  lemma DayFirstStripped() ensures StripSpaces("01011999") == "01011999" { Unpadded("01011999"); }

  /** "01011999" is not a number (a leading zero), fits the compact
      day-month-year pattern date_45 and is labelled date. */
  lemma DayFirstIsDate(c: string)
    requires c == "01011999"
    ensures !IsNumber(true, c) && MatchFormat(DateFormatAt(45), Prepare(true, c))
    ensures Detect(true, c) == Some(Date)
  {
    DayFirstFormat();
    DayFirstNotOther();
    DayFirstNotNumber();
    DayFirstNotTimeOrCurrency();
    DayFirstNotAlphanum();
    DayFirstStripped();
    Prepared(c);
    DetectIsFirstHolding(true, c);
  }

  // ---------------------------------------------------------------------
  // times, percentages, currencies
  // ---------------------------------------------------------------------

  lemma EndOfDay()
    ensures IsTime(true, "23:59:59")
  {
    assert "23:59:59"[..2] == "23";
    assert Patterns.TimeHHMMSS("23:59:59");
    Unpadded("23:59:59");
  }

  lemma ShortTime()
    ensures IsTime(true, "9:05")
  {
    assert Patterns.TimeHMM("9:05");
    Unpadded("9:05");
  }

  lemma NoHour24()
    ensures !IsTime(true, "24:00:00")
  {
    assert "24:00:00"[..2] == "24";
    assert !Patterns.TimeText("24:00:00");
    Unpadded("24:00:00");
  }

  /** "23:59:59" and "9:05" are times; "24:00:00" is not. */
  lemma Times()
    ensures IsTime(true, "23:59:59") && IsTime(true, "9:05")
    ensures !IsTime(true, "24:00:00")
  {
    EndOfDay();
    ShortTime();
    NoHour24();
  }

  lemma DecimalNumberText() ensures Patterns.Number1("45.5") {}
  lemma DecimalNumberPrepared() ensures Prepare(true, "45.5") == "45.5" { Unpadded("45.5"); }
  lemma DecimalNumber() ensures IsNumber(true, "45.5") { DecimalNumberText(); DecimalNumberPrepared(); }

  lemma TwoPercentsStripped() ensures StripSpaces("45.5%%") == "45.5%%" { Unpadded("45.5%%"); }

  lemma TwoPercentsText()
    ensures RStripChar("45.5%%", '%') == "45.5"
  {
    assert RStripChar("45.5%", '%') == "45.5";
  }


  lemma TwoPercentsMarked() ensures EndsWith("45.5%%", '%') {}
  lemma TwoPercentsPrepared() ensures Prepare(true, "45.5%%") == "45.5%%" { TwoPercentsStripped(); }
  lemma TwoPercentsEnd() ensures EndsWith(Prepare(true, "45.5%%"), '%') { TwoPercentsMarked(); TwoPercentsPrepared(); }

  lemma TwoPercentsRest()
    ensures IsNumber(true, RStripChar(Prepare(true, "45.5%%"), '%'))
  {
    TwoPercentsPrepared();
    TwoPercentsText();
    DecimalNumber();
  }

  lemma TwoPercents()
    ensures IsPercentage(true, "45.5%%")
  {
    TwoPercentsEnd();
    TwoPercentsRest();
  }

  lemma LonePercentStripped() ensures StripSpaces("%") == "%" { Unpadded("%"); }

  lemma LonePercentText() ensures RStripChar("%", '%') == "" { }

  lemma LonePercent() ensures !IsPercentage(true, "%") { LonePercentStripped(); LonePercentText(); }

  /** "45.5%%" is a percentage; "%" is not, since nothing is left before
      the signs. */
  lemma Percentages()
    ensures IsPercentage(true, "45.5%%") && !IsPercentage(true, "%")
  {
    TwoPercents();
    LonePercent();
  }

  lemma AmountText() ensures Patterns.Number1("12.50") {}
  lemma AmountPrepared() ensures Prepare(true, "12.50") == "12.50" { Unpadded("12.50"); }
  lemma Amount() ensures IsNumber(true, "12.50") { AmountText(); AmountPrepared(); }

  lemma DollarsText()
    ensures Patterns.CurrencyGroup("$12.50") == Some("12.50")
  {
  }

  lemma DollarsStripped() ensures StripSpaces("$12.50") == "$12.50" { Unpadded("$12.50"); }

  lemma DollarsPrepared() ensures Prepare(true, "$12.50") == "$12.50" { DollarsStripped(); }

  lemma DollarsGroup()
    ensures Patterns.CurrencyGroup(Prepare(true, "$12.50")) == Some("12.50")
  {
    DollarsPrepared();
    DollarsText();
  }

  lemma Dollars()
    ensures IsCurrency(true, "$12.50")
  {
    DollarsGroup();
    Amount();
  }

  lemma SpacedDollarsText()
    ensures Patterns.CurrencyGroup("$ 12.50") == Some("12.50")
  {
    assert "$ 12.50"[2..] == "12.50";
  }

  lemma SpacedDollarsStripped() ensures StripSpaces("$ 12.50") == "$ 12.50" { Unpadded("$ 12.50"); }

  lemma SpacedDollarsPrepared() ensures Prepare(true, "$ 12.50") == "$ 12.50" { SpacedDollarsStripped(); }

  lemma SpacedDollarsGroup()
    ensures Patterns.CurrencyGroup(Prepare(true, "$ 12.50")) == Some("12.50")
  {
    SpacedDollarsPrepared();
    SpacedDollarsText();
  }

  lemma SpacedDollars()
    ensures IsCurrency(true, "$ 12.50")
  {
    SpacedDollarsGroup();
    Amount();
  }

  lemma LoneDollarText()
    ensures Patterns.CurrencyGroup("$") == Some("")
  {
  }

  lemma LoneDollarStripped() ensures StripSpaces("$") == "$" { Unpadded("$"); }

  lemma LoneDollar()
    ensures !IsCurrency(true, "$")
  {
    LoneDollarText();
    LoneDollarStripped();
  }

  /** "$12.50" and "$ 12.50" are currency; "$" is not, since the empty
      remainder is not a number. */
  lemma Currencies()
    ensures IsCurrency(true, "$12.50") && IsCurrency(true, "$ 12.50")
    ensures !IsCurrency(true, "$")
  {
    Dollars();
    SpacedDollars();
    LoneDollar();
  }

  // ---------------------------------------------------------------------
  // labels decided by the order of the tests
  // ---------------------------------------------------------------------

  lemma ShortNotUrlOrEmail(s: string)
    requires |s| < 5 && '@' !in s
    ensures !Patterns.Url(s) && !Patterns.Email(s)
  {
    if Patterns.Url(s) || Patterns.Email(s) {
      Patterns.UrlOrEmailShape(s);
    }
  }

  lemma NotApplicableText()
    ensures !Patterns.UnicodeAlphanum("N/A") && LowerAscii("N/A") == "n/a"
    ensures !Patterns.Url("N/A") && !Patterns.Email("N/A")
  {
    assert "N/A"[1..][0] == '/';
    ShortNotUrlOrEmail("N/A");
  }

  lemma NotApplicableNotOther()
    ensures !Patterns.Number1("N/A") && !Patterns.Number2("N/A") && !Patterns.Number3("N/A")
    ensures !Patterns.TimeText("N/A") && !EndsWith("N/A", '%') && Patterns.CurrencyGroup("N/A") == None
  {
  }

  lemma NotApplicableStripped() ensures StripSpaces("N/A") == "N/A" { Unpadded("N/A"); }

  /** "N/A" is not alphanumeric, because '/' is not an allowed special,
      so it is labelled nan. */
  lemma NotApplicableIsNan(c: string)
    requires c == "N/A"
    ensures Detect(true, c) == Some(Nan)
  {
    NotApplicableText();
    NotApplicableNotOther();
    NotApplicableStripped();
    Prepared(c);
    DetectIsFirstHolding(true, c);
  }

  lemma NanWordText()
    ensures Patterns.UnicodeAlphanum("nan")
    ensures !Patterns.Url("nan") && !Patterns.Email("nan")
  {
    ShortNotUrlOrEmail("nan");
  }

  lemma NanWordNotOther()
    ensures !Patterns.Number1("nan") && !Patterns.Number2("nan") && !Patterns.Number3("nan")
    ensures !Patterns.TimeText("nan") && !EndsWith("nan", '%') && Patterns.CurrencyGroup("nan") == None
  {
  }

  lemma NanWordStripped() ensures StripSpaces("nan") == "nan" { Unpadded("nan"); }

  /** "nan" is labelled alphanumeric: it is not "n/a". */
  lemma NanWordIsAlphanum(c: string)
    requires c == "nan"
    ensures Detect(true, c) == Some(UnicodeAlphanum)
  {
    NanWordText();
    NanWordNotOther();
    NanWordStripped();
    Prepared(c);
    DetectIsFirstHolding(true, c);
  }

  lemma SingleLetterText()
    ensures !Patterns.UnicodeAlphanum("a")
    ensures !Patterns.Url("a") && !Patterns.Email("a")
  {
    ShortNotUrlOrEmail("a");
  }

  lemma SingleLetterNotOther()
    ensures !Patterns.Number1("a") && !Patterns.Number2("a") && !Patterns.Number3("a")
    ensures !Patterns.TimeText("a") && !EndsWith("a", '%') && Patterns.CurrencyGroup("a") == None
    ensures LowerAscii("a") == "a"
  {
  }

  lemma SingleLetterStripped() ensures StripSpaces("a") == "a" { Unpadded("a"); }
  lemma SingleLetterPrepared() ensures Prepare(true, "a") == "a" { SingleLetterStripped(); }
  lemma SingleLetterNoFormat() ensures forall i | 0 <= i < DateFormatCount :: !MatchFormat(DateFormatAt(i), "a") { NoDateFormat("a"); }

  lemma SingleLetterNotDate()
    ensures !IsDate(true, "a")
  {
    SingleLetterPrepared();
    SingleLetterNoFormat();
  }

  /** A single letter is not alphanumeric (the letter-first branch needs a
      second character), and nothing else accepts it: it has no type. */
  lemma SingleLetterIsUnknown(c: string)
    requires c == "a"
    ensures Detect(true, c) == None
  {
    SingleLetterText();
    SingleLetterNotOther();
    SingleLetterStripped();
    SingleLetterNotDate();
    Prepared(c);
    DetectIsFirstHolding(true, c);
  }

  /** Numbers, one letter, then token characters are alphanumeric. */
  lemma NumbersThenLetter(x: string, letter: char, y: string)
    requires x != [] && Patterns.AllOf(x, IsNumeric) && IsLetter(letter) && Patterns.AllOf(y, Patterns.IsTokenChar)
    ensures Patterns.UnicodeAlphanum(x + [letter] + y)
  {
    var s := x + [letter] + y;
    assert s[..|x|] == x && s[|x|] == letter && s[|x| + 1..] == y;
    Patterns.NumbersThenLetterAt(s, |x|);
  }

  lemma CompactStampSplit() ensures "20230101T1230" == "20230101" + ['T'] + "1230" {}
  lemma CompactStampTimeDigits() ensures DigitText("1230") {}
  lemma LetterT() ensures IsLetter('T') {}

  lemma CompactStampClasses()
    ensures Patterns.AllOf("20230101", IsNumeric) && Patterns.AllOf("1230", Patterns.IsTokenChar)
  {
    CompactStampDateDigits();
    CompactStampTimeDigits();
    DigitTextClasses("20230101");
    DigitTextClasses("1230");
  }

  lemma CompactStampText()
    ensures Patterns.UnicodeAlphanum("20230101T1230")
  {
    CompactStampClasses();
    LetterT();
    NumbersThenLetter("20230101", 'T', "1230");
    CompactStampSplit();
  }

  lemma CompactStampPieces() ensures "20230101T1230" == "20230101" + "T1230" {}
  lemma CompactStampDateDigits() ensures DigitText("20230101") {}

  lemma CompactStampLeadingDigits()
    ensures Patterns.LeadingCount("20230101T1230", Patterns.IsDigit) == 8
  {
    CompactStampPieces();
    CompactStampDateDigits();
    DigitTextClasses("20230101");
    assert !Patterns.IsDigit('T');
    Patterns.LeadingCountOf("20230101", "T1230", Patterns.IsDigit);
  }

  lemma CompactStampSlices() ensures "20230101T1230"[8..] == "T1230" && "20230101T1230"[1..] == "0230101T1230" {}
  lemma CompactStampNoTail() ensures !Patterns.NumberTail("T1230") {}

  lemma CompactStampNotNumber1()
    ensures !Patterns.Number1("20230101T1230")
  {
    CompactStampLeadingDigits();
    CompactStampSlices();
    CompactStampNoTail();
  }

  lemma CompactStampNotNumber()
    ensures !Patterns.Number1("20230101T1230") && !Patterns.Number2("20230101T1230") && !Patterns.Number3("20230101T1230")
  {
    CompactStampNotNumber1();
    NotGrouped("20230101T1230", ',', '.');
    NotGrouped("20230101T1230", '.', ',');
  }

  lemma CompactStampNotOther()
    ensures !Patterns.TimeText("20230101T1230") && !EndsWith("20230101T1230", '%') && Patterns.CurrencyGroup("20230101T1230") == None
    ensures !Patterns.Url("20230101T1230") && !Patterns.Email("20230101T1230")
  {
    DigitLedNotUrlOrEmail("20230101T1230");
  }

  lemma CompactStampStripped() ensures StripSpaces("20230101T1230") == "20230101T1230" { Unpadded("20230101T1230"); }

  /** "20230101T1230" is labelled alphanumeric: it is not empty, not a URL or
      e-mail, not a number, time, percentage or currency, and the
      alphanumeric test holds. */
  lemma CompactStampIsAlphanum(c: string)
    requires c == "20230101T1230"
    ensures Detect(true, c) == Some(UnicodeAlphanum)
  {
    CompactStampText();
    CompactStampNotNumber();
    CompactStampNotOther();
    CompactStampStripped();
    Prepared(c);
    DetectIsFirstHolding(true, c);
  }
}
