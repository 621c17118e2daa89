/**
 * The type tests of `TypeDetector` (ccsv/detect_type.py:152-286) as pure
 * predicates of a cell, given the detector's `strip_whitespace` flag, and
 * the ordered dispatch `detect_type` that returns the first type whose test
 * holds.
 */
module CellTypes {
  import opened Unicode
  import opened Text
  import Patterns
  import opened DateFormats

  datatype CellType =
    | Empty | UrlOrEmail | Number | Time | Percentage | Currency | UnicodeAlphanum | Nan | Date | Datetime

  /** What `_run_regex` and the tests that strip see of a cell: with
      `strip_whitespace` set, the cell without its leading and trailing ASCII
      spaces. */
  function Prepare(strip: bool, cell: string): string
  {
    if strip then StripSpaces(cell) else cell
  }

  /** is_empty */
  predicate IsEmpty(strip: bool, cell: string)
  {
    Prepare(strip, cell) == ""
  }

  /** is_url_or_email */
  predicate IsUrlOrEmail(strip: bool, cell: string)
  {
    var s := Prepare(strip, cell);
    Patterns.Url(s) || Patterns.Email(s)
  }

  /** is_number: the emptiness test looks at the cell before stripping. */
  predicate IsNumber(strip: bool, cell: string)
  {
    && cell != ""
    && var s := Prepare(strip, cell);
       Patterns.Number1(s) || Patterns.Number2(s) || Patterns.Number3(s)
  }

  /** is_time: time_hmm, time_hhmm or time_hhmmss. */
  predicate IsTime(strip: bool, cell: string)
  {
    var s := Prepare(strip, cell);
    Patterns.TimeHMM(s) || Patterns.TimeHHMM(s) || Patterns.TimeHHMMSS(s)
  }

  /** is_percentage: a trailing '%', and a number once every trailing '%' is
      removed. */
  predicate IsPercentage(strip: bool, cell: string)
  {
    var s := Prepare(strip, cell);
    EndsWith(s, '%') && IsNumber(strip, RStripChar(s, '%'))
  }

  /** is_currency: the currency pattern matches and its group is a number. */
  predicate IsCurrency(strip: bool, cell: string)
  {
    var g := Patterns.CurrencyGroup(Prepare(strip, cell));
    g.Some? && IsNumber(strip, g.value)
  }

  /** is_unicode_alphanum */
  predicate IsUnicodeAlphanum(strip: bool, cell: string)
  {
    Patterns.UnicodeAlphanum(Prepare(strip, cell))
  }

  /** is_nan */
  predicate IsNan(strip: bool, cell: string)
  {
    LowerAscii(Prepare(strip, cell)) == "n/a"
  }

  /** is_date: never a number; otherwise some date pattern matches. */
  predicate IsDate(strip: bool, cell: string)
  {
    && !IsNumber(strip, cell)
    && exists i | 0 <= i < DateFormatCount :: MatchFormat(DateFormatAt(i), Prepare(strip, cell))
  }

  /** The offset branch of is_datetime: split the part after 'T' on `sign`;
      the first piece must be a time and the second a time or an HHMM
      offset (time_HHMM and time_HH are the same pattern). Further pieces
      are not looked at. */
  predicate OffsetTime(strip: bool, t: string, sign: char)
    requires sign in t
  {
    var sub := Split(t, sign);
    && IsTime(strip, sub[0])
    && (IsTime(strip, sub[1]) || Patterns.TimeCompact(Prepare(strip, sub[1])))
  }

  /** is_datetime, on the cell as given: `[date] [time]`, or
      `[date]T[time]` with an optional `+` or `-` offset. */
  predicate IsDatetime(strip: bool, cell: string)
  {
    if ' ' in cell then
      var parts := Split(cell, ' ');
      |parts| == 2 && IsDate(strip, parts[0]) && IsTime(strip, parts[1])
    else if 'T' in cell then
      var parts := Split(cell, 'T');
      if |parts| > 2 || !IsDate(strip, parts[0]) then false
      else if IsTime(strip, parts[1]) then true
      else if '+' in parts[1] then OffsetTime(strip, parts[1], '+')
      else if '-' in parts[1] then OffsetTime(strip, parts[1], '-')
      else false
    else false
  }

  predicate Holds(strip: bool, cell: string, t: CellType)
  {
    match t
    case Empty => IsEmpty(strip, cell)
    case UrlOrEmail => IsUrlOrEmail(strip, cell)
    case Number => IsNumber(strip, cell)
    case Time => IsTime(strip, cell)
    case Percentage => IsPercentage(strip, cell)
    case Currency => IsCurrency(strip, cell)
    case UnicodeAlphanum => IsUnicodeAlphanum(strip, cell)
    case Nan => IsNan(strip, cell)
    case Date => IsDate(strip, cell)
    case Datetime => IsDatetime(strip, cell)
  }

  /** The order in which detect_type tries the types. */
  const TypeOrder: seq<CellType> :=
    [Empty, UrlOrEmail, Number, Time, Percentage, Currency, UnicodeAlphanum, Nan, Date, Datetime]

  /** detect_type: the first type, in TypeOrder, whose test holds. */
  function Detect(strip: bool, cell: string): Option<CellType>
  {
    if IsEmpty(strip, cell) then Some(Empty)
    else if IsUrlOrEmail(strip, cell) then Some(UrlOrEmail)
    else if IsNumber(strip, cell) then Some(Number)
    else if IsTime(strip, cell) then Some(Time)
    else if IsPercentage(strip, cell) then Some(Percentage)
    else if IsCurrency(strip, cell) then Some(Currency)
    else if IsUnicodeAlphanum(strip, cell) then Some(UnicodeAlphanum)
    else if IsNan(strip, cell) then Some(Nan)
    else if IsDate(strip, cell) then Some(Date)
    else if IsDatetime(strip, cell) then Some(Datetime)
    else None
  }

  /** is_known_type */
  predicate IsKnown(strip: bool, cell: string)
  {
    Detect(strip, cell) != None
  }

  /** The first type from position `j` of TypeOrder on whose test holds:
      what the loop of detect_type still has to find after `j` failures. */
  function DetectFrom(strip: bool, cell: string, j: nat): Option<CellType>
    requires j <= |TypeOrder|
    decreases |TypeOrder| - j
  {
    if j == |TypeOrder| then None
    else if Holds(strip, cell, TypeOrder[j]) then Some(TypeOrder[j])
    else DetectFrom(strip, cell, j + 1)
  }

  // ---------------------------------------------------------------------
  // the dispatch
  // ---------------------------------------------------------------------

  /** The entries of TypeOrder, one by one. */
  lemma TypeOrderEntries()
    ensures |TypeOrder| == 10
    ensures TypeOrder[0] == Empty && TypeOrder[1] == UrlOrEmail && TypeOrder[2] == Number
    ensures TypeOrder[3] == Time && TypeOrder[4] == Percentage && TypeOrder[5] == Currency
    ensures TypeOrder[6] == UnicodeAlphanum && TypeOrder[7] == Nan && TypeOrder[8] == Date
    ensures TypeOrder[9] == Datetime
  {
  }

  /** Scanning TypeOrder from its start finds what detect_type returns. */
  lemma DetectFromStart(strip: bool, cell: string)
    ensures DetectFrom(strip, cell, 0) == Detect(strip, cell)
  {
    DetectFromEmpty(strip, cell);
    DetectFromUrlOrEmail(strip, cell);
    DetectFromNumber(strip, cell);
    DetectFromTime(strip, cell);
    DetectFromPercentage(strip, cell);
    DetectFromCurrency(strip, cell);
    DetectFromUnicodeAlphanum(strip, cell);
    DetectFromNan(strip, cell);
    DetectFromDate(strip, cell);
    DetectFromDatetime(strip, cell);
  }

  lemma DetectFromEmpty(strip: bool, cell: string)
    ensures DetectFrom(strip, cell, 0) == if IsEmpty(strip, cell) then Some(Empty) else DetectFrom(strip, cell, 1)
  {
    TypeOrderEntries();
  }

  lemma DetectFromUrlOrEmail(strip: bool, cell: string)
    ensures DetectFrom(strip, cell, 1) == if IsUrlOrEmail(strip, cell) then Some(UrlOrEmail) else DetectFrom(strip, cell, 2)
  {
    TypeOrderEntries();
  }

  lemma DetectFromNumber(strip: bool, cell: string)
    ensures DetectFrom(strip, cell, 2) == if IsNumber(strip, cell) then Some(Number) else DetectFrom(strip, cell, 3)
  {
    TypeOrderEntries();
  }

  lemma DetectFromTime(strip: bool, cell: string)
    ensures DetectFrom(strip, cell, 3) == if IsTime(strip, cell) then Some(Time) else DetectFrom(strip, cell, 4)
  {
    TypeOrderEntries();
  }

  lemma DetectFromPercentage(strip: bool, cell: string)
    ensures DetectFrom(strip, cell, 4) == if IsPercentage(strip, cell) then Some(Percentage) else DetectFrom(strip, cell, 5)
  {
    TypeOrderEntries();
  }

  lemma DetectFromCurrency(strip: bool, cell: string)
    ensures DetectFrom(strip, cell, 5) == if IsCurrency(strip, cell) then Some(Currency) else DetectFrom(strip, cell, 6)
  {
    TypeOrderEntries();
  }

  lemma DetectFromUnicodeAlphanum(strip: bool, cell: string)
    ensures DetectFrom(strip, cell, 6) == if IsUnicodeAlphanum(strip, cell) then Some(UnicodeAlphanum) else DetectFrom(strip, cell, 7)
  {
    TypeOrderEntries();
  }

  lemma DetectFromNan(strip: bool, cell: string)
    ensures DetectFrom(strip, cell, 7) == if IsNan(strip, cell) then Some(Nan) else DetectFrom(strip, cell, 8)
  {
    TypeOrderEntries();
  }

  lemma DetectFromDate(strip: bool, cell: string)
    ensures DetectFrom(strip, cell, 8) == if IsDate(strip, cell) then Some(Date) else DetectFrom(strip, cell, 9)
  {
    TypeOrderEntries();
  }

  lemma DetectFromDatetime(strip: bool, cell: string)
    ensures DetectFrom(strip, cell, 9) == if IsDatetime(strip, cell) then Some(Datetime) else DetectFrom(strip, cell, 10)
  {
    TypeOrderEntries();
    assert DetectFrom(strip, cell, 10) == None;
  }

  /** detect_type returns a type exactly when its test holds and the tests
      of every type before it fail; it returns None when every test fails. */
  lemma DetectIsFirstHolding(strip: bool, cell: string)
    ensures Detect(strip, cell) == Some(Empty) <==>
      IsEmpty(strip, cell)
    ensures Detect(strip, cell) == Some(UrlOrEmail) <==>
      !IsEmpty(strip, cell) && IsUrlOrEmail(strip, cell)
    ensures Detect(strip, cell) == Some(Number) <==>
      !IsEmpty(strip, cell) && !IsUrlOrEmail(strip, cell) && IsNumber(strip, cell)
    ensures Detect(strip, cell) == Some(Time) <==>
      !IsEmpty(strip, cell) && !IsUrlOrEmail(strip, cell) && !IsNumber(strip, cell) && IsTime(strip, cell)
    ensures Detect(strip, cell) == Some(Percentage) <==>
      !IsEmpty(strip, cell) && !IsUrlOrEmail(strip, cell) && !IsNumber(strip, cell) && !IsTime(strip, cell) && IsPercentage(strip, cell)
    ensures Detect(strip, cell) == Some(Currency) <==>
      !IsEmpty(strip, cell) && !IsUrlOrEmail(strip, cell) && !IsNumber(strip, cell) && !IsTime(strip, cell) && !IsPercentage(strip, cell) && IsCurrency(strip, cell)
    ensures Detect(strip, cell) == Some(UnicodeAlphanum) <==>
      !IsEmpty(strip, cell) && !IsUrlOrEmail(strip, cell) && !IsNumber(strip, cell) && !IsTime(strip, cell) && !IsPercentage(strip, cell) && !IsCurrency(strip, cell) && IsUnicodeAlphanum(strip, cell)
    ensures Detect(strip, cell) == Some(Nan) <==>
      !IsEmpty(strip, cell) && !IsUrlOrEmail(strip, cell) && !IsNumber(strip, cell) && !IsTime(strip, cell) && !IsPercentage(strip, cell) && !IsCurrency(strip, cell) && !IsUnicodeAlphanum(strip, cell) && IsNan(strip, cell)
    ensures Detect(strip, cell) == Some(Date) <==>
      !IsEmpty(strip, cell) && !IsUrlOrEmail(strip, cell) && !IsNumber(strip, cell) && !IsTime(strip, cell) && !IsPercentage(strip, cell) && !IsCurrency(strip, cell) && !IsUnicodeAlphanum(strip, cell) && !IsNan(strip, cell) && IsDate(strip, cell)
    ensures Detect(strip, cell) == Some(Datetime) <==>
      !IsEmpty(strip, cell) && !IsUrlOrEmail(strip, cell) && !IsNumber(strip, cell) && !IsTime(strip, cell) && !IsPercentage(strip, cell) && !IsCurrency(strip, cell) && !IsUnicodeAlphanum(strip, cell) && !IsNan(strip, cell) && !IsDate(strip, cell) && IsDatetime(strip, cell)
    ensures Detect(strip, cell) == None <==>
      !IsEmpty(strip, cell) && !IsUrlOrEmail(strip, cell) && !IsNumber(strip, cell) && !IsTime(strip, cell) && !IsPercentage(strip, cell) && !IsCurrency(strip, cell) && !IsUnicodeAlphanum(strip, cell) && !IsNan(strip, cell) && !IsDate(strip, cell) && !IsDatetime(strip, cell)
  {
  }

  /** A cell has a known type exactly when one of the ten tests holds. */
  lemma KnownIffSomeTestHolds(strip: bool, cell: string)
    ensures IsKnown(strip, cell) <==>
      IsEmpty(strip, cell) || IsUrlOrEmail(strip, cell) || IsNumber(strip, cell) || IsTime(strip, cell) || IsPercentage(strip, cell) || IsCurrency(strip, cell) || IsUnicodeAlphanum(strip, cell) || IsNan(strip, cell) || IsDate(strip, cell) || IsDatetime(strip, cell)
  {
  }

  // ---------------------------------------------------------------------
  // single tests
  // ---------------------------------------------------------------------

  /** With stripping, a cell is empty when it is all spaces; without, only
      the empty string is. */
  lemma EmptyIffBlank(strip: bool, cell: string)
    ensures IsEmpty(strip, cell) <==>
      if strip then forall k | 0 <= k < |cell| :: cell[k] == ' ' else cell == ""
  {
    if strip && forall k | 0 <= k < |cell| :: cell[k] == ' ' {
      LStripAllSpaces(cell);
    }
  }

  lemma LStripAllSpaces(s: string)
    requires forall k | 0 <= k < |s| :: s[k] == ' '
    ensures LStripChar(s, ' ') == []
  {
  }

  /** A character that may occur in a cell that is_number accepts. */
  predicate IsNumberCellChar(c: char) { c == ' ' || Patterns.IsNumberChar(c) }

  /** A cell is_number accepts is made of number characters and, when
      stripping, spaces; if it starts with whitespace, that is an ASCII
      space and stripping is on. */
  lemma NumberCellChars(strip: bool, cell: string)
    requires IsNumber(strip, cell)
    ensures Patterns.AllOf(cell, IsNumberCellChar)
    ensures IsWhitespace(cell[0]) ==> cell[0] == ' ' && strip
  {
    var s := Prepare(strip, cell);
    Patterns.NumberChars(s);
    NumberCharsAreCellChars(s);
    ClassRelations(s[0]);
    if strip {
      StripSpacesShape(cell);
      var i, j :| cell == Spaces(i) + s + Spaces(j);
      PaddedCellChars(i, s, j);
      if i == 0 {
        assert cell[0] == s[0];
      }
    }
  }

  lemma NumberCharsAreCellChars(s: string)
    requires Patterns.AllOf(s, Patterns.IsNumberChar)
    ensures Patterns.AllOf(s, IsNumberCellChar)
  {
    forall k | 0 <= k < |s| ensures IsNumberCellChar(s[k]) {
      Patterns.AllOfAt(s, Patterns.IsNumberChar, k);
    }
  }

  lemma PaddedCellChars(i: nat, s: string, j: nat)
    requires Patterns.AllOf(s, IsNumberCellChar)
    ensures Patterns.AllOf(Spaces(i) + s + Spaces(j), IsNumberCellChar)
  {
    var t := Spaces(i) + s + Spaces(j);
    forall k | 0 <= k < |t| ensures IsNumberCellChar(t[k]) {
      if i <= k < i + |s| {
        assert t[k] == s[k - i];
        Patterns.AllOfAt(s, IsNumberCellChar, k - i);
      }
    }
  }

  /** A number is never a date, whatever date pattern it matches. */
  lemma NumberIsNotDate(strip: bool, cell: string)
    requires IsNumber(strip, cell)
    ensures !IsDate(strip, cell)
  {
  }

  /** A number is labelled number: it is not empty and neither url nor
      email can match it. */
  lemma NumberIsLabelledNumber(strip: bool, cell: string)
    requires IsNumber(strip, cell)
    ensures Detect(strip, cell) == Some(Number)
  {
    NumberIsNotUrlOrEmail(strip, cell);
  }

  lemma NumberIsNotUrlOrEmail(strip: bool, cell: string)
    requires IsNumber(strip, cell)
    ensures !IsEmpty(strip, cell) && !IsUrlOrEmail(strip, cell)
  {
    var s := Prepare(strip, cell);
    Patterns.NumberChars(s);
    if Patterns.Url(s) || Patterns.Email(s) {
      Patterns.UrlOrEmailShape(s);
    }
  }

  /** `"%" * k` */
  function Percents(k: nat): (r: string)
    ensures |r| == k && forall m | 0 <= m < k :: r[m] == '%'
  {
    if k == 0 then [] else Percents(k - 1) + "%"
  }

  /** is_percentage holds exactly of a prepared cell that is a number
      followed by one or more '%'. */
  lemma PercentageIff(strip: bool, cell: string)
    ensures IsPercentage(strip, cell) <==>
      var s := Prepare(strip, cell);
      exists j | 0 <= j < |s| :: s == s[..j] + Percents(|s| - j) && IsNumber(strip, s[..j])
  {
    var s := Prepare(strip, cell);
    if IsPercentage(strip, cell) {
      var j := |RStripChar(s, '%')|;
      assert s == s[..j] + Percents(|s| - j);
    }
    if j :| 0 <= j < |s| && s == s[..j] + Percents(|s| - j) && IsNumber(strip, s[..j]) {
      NumberBeforePercents(strip, s, j);
    }
  }

  lemma NumberBeforePercents(strip: bool, s: string, j: nat)
    requires 0 <= j < |s| && s == s[..j] + Percents(|s| - j) && IsNumber(strip, s[..j])
    ensures RStripChar(s, '%') == s[..j]
  {
    NumberCellChars(strip, s[..j]);
    Patterns.AllOfAt(s[..j], IsNumberCellChar, j - 1);
    assert s[j - 1] == s[..j][j - 1];
    forall m | j <= m < |s| ensures s[m] == '%' {
      assert s[m] == Percents(|s| - j)[m - j];
    }
    RStripAt(s, '%', j);
  }

  lemma RStripAt(s: string, c: char, j: nat)
    requires 0 < j <= |s| && s[j - 1] != c && forall m | j <= m < |s| :: s[m] == c
    ensures RStripChar(s, c) == s[..j]
  {
    var r := RStripChar(s, c);
    assert |r| == j;
  }

  /** A number cell is its number, left-stripped when stripping, after some
      spaces; the number neither starts with a space nor ends with `%`. */
  lemma NumberAfterSpaces(strip: bool, n: string) returns (i: nat, m: string)
    requires IsNumber(strip, n)
    ensures n == Spaces(i) + m && m != [] && m[|m| - 1] != '%'
    ensures !strip ==> i == 0 && m == n
    ensures strip ==> m[0] != ' '
    ensures IsNumber(strip, m)
  {
    NumberCellChars(strip, n);
    Patterns.NumberChars(Prepare(strip, n));
    CellCharsEnd(n);
    i, m := CellAfterSpaces(strip, n);
  }

  /** The same for any text that does not end with `%` and does not prepare
      to the empty text. */
  lemma CellAfterSpaces(strip: bool, n: string) returns (i: nat, m: string)
    requires n != [] && n[|n| - 1] != '%' && Prepare(strip, n) != []
    ensures n == Spaces(i) + m && m != [] && m[|m| - 1] != '%'
    ensures !strip ==> i == 0 && m == n
    ensures strip ==> m[0] != ' '
    ensures Prepare(strip, m) == Prepare(strip, n)
  {
    if !strip {
      i, m := 0, n;
      assert Spaces(0) + n == n;
    } else {
      m := LStripChar(n, ' ');
      i := |n| - |m|;
      assert m != [] && m[|m| - 1] != '%' by {
        LStripLast(n, ' ');
      }
      assert StripSpaces(m) == StripSpaces(n) by {
        StripAfterLStrip(n);
      }
      assert n == Spaces(i) + m by {
        LStripSplit(n);
      }
    }
  }

  /** No text of number characters and spaces ends with `%`. */
  lemma CellCharsEnd(n: string)
    requires n != [] && Patterns.AllOf(n, IsNumberCellChar)
    ensures n[|n| - 1] != '%'
  {
    Patterns.AllOfAt(n, IsNumberCellChar, |n| - 1);
  }

  /** A number followed by percent signs is a percentage, whether or not
      the detector strips spaces. */
  lemma NumberWithPercents(strip: bool, n: string, k: nat)
    requires IsNumber(strip, n) && k >= 1
    ensures IsPercentage(strip, n + Percents(k))
  {
    var cell := n + Percents(k);
    var i, m := NumberAfterSpaces(strip, n);
    var t := m + Percents(k);
    PaddedAppend(n, i, m, Percents(k));
    if strip {
      StripSpacesOfPadded(i, t, 0);
    }
    assert Prepare(strip, cell) == t;
    PercentsAfter(m, k);
    PercentageIff(strip, cell);
  }

  /** A text followed by percent signs splits back into the two. */
  lemma PercentsAfter(m: string, k: nat)
    ensures var s := m + Percents(k);
      s[..|m|] == m && s == s[..|m|] + Percents(|s| - |m|)
  {
  }

  /** is_currency holds exactly of a prepared cell made of one currency
      symbol, at most one whitespace character, and a number. */
  lemma CurrencyIff(strip: bool, cell: string)
    ensures IsCurrency(strip, cell) <==>
      var s := Prepare(strip, cell);
      && s != [] && IsCurrencySymbol(s[0])
      && ((|s| >= 2 && IsWhitespace(s[1]) && IsNumber(strip, s[2..])) || IsNumber(strip, s[1..]))
  {
    var s := Prepare(strip, cell);
    if s != [] && IsCurrencySymbol(s[0]) {
      if |s| >= 2 && IsWhitespace(s[1]) {
        if IsNumber(strip, s[1..]) {
          WhitespaceThenNumber(strip, s[1..]);
          assert s[1..][1..] == s[2..];
        }
        if IsNumber(strip, s[2..]) {
          NoNewlineInNumber(strip, s[2..]);
        }
      } else if IsNumber(strip, s[1..]) {
        NoNewlineInNumber(strip, s[1..]);
      }
    }
  }

  /** A number cell may start with whitespace only when it is a space that
      stripping removes. */
  lemma WhitespaceThenNumber(strip: bool, t: string)
    requires t != [] && IsWhitespace(t[0]) && IsNumber(strip, t)
    ensures IsNumber(strip, t[1..])
  {
    NumberCellChars(strip, t);
    SpaceThenNumber(t);
  }

  lemma NoNewlineInNumber(strip: bool, t: string)
    requires IsNumber(strip, t)
    ensures '\n' !in t
  {
    NumberCellChars(strip, t);
  }

  /** A leading space does not change a stripped number. */
  lemma SpaceThenNumber(t: string)
    requires t != [] && t[0] == ' ' && IsNumber(true, t)
    ensures IsNumber(true, t[1..])
  {
    assert LStripChar(t, ' ') == LStripChar(t[1..], ' ');
  }

  /** is_nan accepts the four spellings of "n/a" and nothing else. */
  lemma NanSpellings(strip: bool, cell: string)
    ensures IsNan(strip, cell) <==> Prepare(strip, cell) in {"n/a", "N/a", "n/A", "N/A"}
  {
    var s := Prepare(strip, cell);
    if IsNan(strip, cell) {
      var l := LowerAscii(s);
      assert |s| == |l| == 3;
      assert l[0] == LowerChar(s[0]) && l[1] == LowerChar(s[1]) && l[2] == LowerChar(s[2]);
      assert LowerChar(s[0]) == 'n' && LowerChar(s[1]) == '/' && LowerChar(s[2]) == 'a';
      assert s == [s[0], s[1], s[2]];
    }
  }

  // ---------------------------------------------------------------------
  // dates
  // ---------------------------------------------------------------------

  /** The patterns with Chinese or Korean marks. */
  predicate IsMarkedDateIndex(i: nat)
  {
    (i < 40 && i % 5 >= 3) || i == 43 || i == 47
  }

  predicate IsDateMark(c: char)
  {
    c in {'\U{5E74}', '\U{6708}', '\U{65E5}', '\U{B144}', '\U{C6D4}', '\U{C77C}'}
  }

  predicate IsDigitOrMark(c: char) { IsDecimalDigit(c) || IsDateMark(c) }

  /** A field, a mark, then fields and marks. */
  predicate IsMarkedFormat(fmt: DateFormat)
  {
    && |fmt| >= 2 && fmt[0].Part? && fmt[1].Mark? && IsDateMark(fmt[1].mark)
    && forall j | 2 <= j < |fmt| :: TokenWithin(fmt[j], IsDigitOrMark)
  }

  lemma MarkedFormat(i: nat)
    requires i < DateFormatCount && IsMarkedDateIndex(i)
    ensures IsMarkedFormat(DateFormatAt(i))
  {
  }

  lemma MarkedTailTokenChars(t: string)
    requires Patterns.AllOf(t, IsDigitOrMark)
    ensures Patterns.AllOf(t, Patterns.IsTokenChar)
  {
    forall k | 0 <= k < |t| ensures Patterns.IsTokenChar(t[k]) {
      Patterns.AllOfAt(t, IsDigitOrMark, k);
      ClassRelations(t[k]);
    }
  }

  lemma DigitsAreNumeric(t: string)
    requires Patterns.AllOf(t, IsDecimalDigit)
    ensures Patterns.AllOf(t, IsNumeric)
  {
    forall k | 0 <= k < |t| ensures IsNumeric(t[k]) {
      Patterns.AllOfAt(t, IsDecimalDigit, k);
      ClassRelations(t[k]);
    }
  }

  /** A date written with Chinese or Korean marks is alphanumeric: digits,
      then a mark, which is a letter, then digits and marks. */
  lemma MarkedDateIsAlphanum(fmt: DateFormat, s: string)
    requires IsMarkedFormat(fmt) && MatchFormat(fmt, s)
    ensures Patterns.UnicodeAlphanum(s)
  {
    var mark := fmt[1].mark;
    assert fmt == [Part(fmt[0].field), Mark(mark)] + fmt[2..];
    var w := FieldThenMark(fmt[0].field, mark, fmt[2..], s);
    MatchFormatWithin(fmt[2..], s[w + 1..], IsDigitOrMark);
    MarkedTailTokenChars(s[w + 1..]);
    FieldTextDigits(fmt[0].field, s[..w]);
    DigitsAreNumeric(s[..w]);
    assert IsLetter(s[w]);
    Patterns.NumbersThenLetterAt(s, w);
  }

  /** Dates written with Chinese or Korean marks are never labelled date:
      unicode_alphanum, which is tried first, accepts them. */
  lemma MarkedDateIsNotLabelledDate(strip: bool, cell: string, i: nat)
    requires i < DateFormatCount && IsMarkedDateIndex(i)
    requires MatchFormat(DateFormatAt(i), Prepare(strip, cell))
    ensures Detect(strip, cell) != Some(Date)
  {
    MarkedFormat(i);
    MarkedDateIsAlphanum(DateFormatAt(i), Prepare(strip, cell));
    AlphanumIsNotLabelledDate(strip, cell);
  }

  /** unicode_alphanum is tried before date. */
  lemma AlphanumIsNotLabelledDate(strip: bool, cell: string)
    requires IsUnicodeAlphanum(strip, cell)
    ensures Detect(strip, cell) != Some(Date)
  {
  }

  /** The compact patterns (keys 40-47 without marks) match only digits. */
  lemma CompactDateIsDigits(i: nat, s: string)
    requires 40 <= i < DateFormatCount && !IsMarkedDateIndex(i)
    requires MatchFormat(DateFormatAt(i), s)
    ensures s != [] && Patterns.AllOf(s, IsDecimalDigit)
  {
    CompactFormatIsFields(i);
    MatchFormatWithin(DateFormatAt(i), s, IsDecimalDigit);
    DateStartsWithDigit(i, s);
  }

  lemma CompactFormatIsFields(i: nat)
    requires 40 <= i < DateFormatCount && !IsMarkedDateIndex(i)
    ensures forall j | 0 <= j < |DateFormatAt(i)| :: DateFormatAt(i)[j].Part?
  {
    var yi, k := (i - 40) / 4, (i - 40) % 4;
    CompactIndex(yi, k);
    assert 40 + 4 * yi + k == i;
  }

  /** A compact date that starts with a non-zero ASCII digit is a number,
      so it is labelled number and never date. */
  lemma CompactDateIsNumber(strip: bool, cell: string, i: nat)
    requires 40 <= i < DateFormatCount && !IsMarkedDateIndex(i)
    requires var s := Prepare(strip, cell); MatchFormat(DateFormatAt(i), s) && '1' <= s[0] <= '9'
    ensures Detect(strip, cell) == Some(Number)
  {
    var s := Prepare(strip, cell);
    CompactDateIsDigits(i, s);
    assert Patterns.AllOf(s[1..], Patterns.IsDigit) by {
      forall k | 0 <= k < |s| - 1 ensures Patterns.IsDigit(s[1..][k]) {
        Patterns.AllOfAt(s, IsDecimalDigit, k + 1);
      }
    }
    Patterns.DigitRunIsNumber(s);
    assert cell != "";
    NumberIsLabelledNumber(strip, cell);
  }

  // ---------------------------------------------------------------------
  // datetime
  // ---------------------------------------------------------------------

  /** `[date] [time]`: with exactly one space, a datetime is a date, the
      space and a time. */
  lemma DatetimeWithSpace(strip: bool, d: string, t: string)
    requires ' ' !in d && ' ' !in t
    ensures IsDatetime(strip, d + " " + t) <==> IsDate(strip, d) && IsTime(strip, t)
  {
    SplitAtFirst(d, ' ', t);
  }

  /** A cell with two or more spaces is never a datetime. */
  lemma DatetimeNotTwoSpaces(strip: bool, a: string, b: string, c: string)
    requires ' ' !in a
    ensures !IsDatetime(strip, a + " " + b + " " + c)
  {
    assert a + " " + b + " " + c == a + [' '] + (b + " " + c);
    SplitAtFirst(a, ' ', b + " " + c);
  }

  /** `[date]T[time]`, possibly with an offset: without spaces and with
      exactly one 'T', a datetime is a date, the 'T', and a time or a time
      with a '+' offset or (when there is no '+') a '-' offset. */
  lemma DatetimeWithT(strip: bool, d: string, t: string)
    requires ' ' !in d && ' ' !in t && 'T' !in d && 'T' !in t
    ensures IsDatetime(strip, d + "T" + t) <==>
      && IsDate(strip, d)
      && (|| IsTime(strip, t)
          || ('+' in t && OffsetTime(strip, t, '+'))
          || ('+' !in t && '-' in t && OffsetTime(strip, t, '-')))
  {
    assert ' ' !in d + "T" + t;
    SplitAtFirst(d, 'T', t);
  }

  /** A cell without spaces and with two or more 'T's is never a datetime. */
  lemma DatetimeNotTwoTs(strip: bool, a: string, b: string, c: string)
    requires ' ' !in a && ' ' !in b && ' ' !in c && 'T' !in a
    ensures !IsDatetime(strip, a + "T" + b + "T" + c)
  {
    assert a + "T" + b + "T" + c == a + ['T'] + (b + "T" + c);
    SplitAtFirst(a, 'T', b + "T" + c);
  }

  /** The offset branch looks only at the pieces around the first sign:
      whatever follows a second sign is ignored. */
  lemma OffsetTimePieces(strip: bool, a: string, sign: char, b: string, rest: string)
    requires sign !in a && sign !in b && (rest == [] || rest[0] == sign)
    ensures sign in a + [sign] + b + rest
    ensures OffsetTime(strip, a + [sign] + b + rest, sign) <==>
      IsTime(strip, a) && (IsTime(strip, b) || Patterns.TimeCompact(Prepare(strip, b)))
  {
    assert (a + [sign] + b + rest)[|a|] == sign;
    assert a + [sign] + b + rest == a + [sign] + (b + rest);
    SplitAtFirst(a, sign, b + rest);
    SplitHead(b, sign, rest);
  }
}
