/**
 * The date patterns generated by `_init_date_patterns`
 * (ccsv/detect_type.py:100-146): a date format is a sequence of tokens
 * (a year, month or day field, a separator, or a fixed mark such as the
 * Chinese 年), and a string matches a format when it splits into one piece
 * per token with every piece in that token's language.
 */
module DateFormats {
  import opened Unicode
  import opened Patterns

  /** The six field patterns of ccsv/detect_type.py:104-111. */
  datatype Field = Year2 | Year4 | MonthLeading | MonthSparse | DayLeading | DaySparse

  datatype DateToken = Part(field: Field) | Separator | Mark(mark: char)

  type DateFormat = seq<DateToken>

  /** `[-/\.\ ]` */
  predicate IsDateSeparator(c: char) { c == '-' || c == '/' || c == '.' || c == ' ' }

  /** The language of each field pattern; `\d` is a Unicode decimal digit,
      the bracketed ranges are ASCII. */
  predicate FieldText(f: Field, s: string)
  {
    match f
    case Year2 => |s| == 2 && IsDecimalDigit(s[0]) && IsDecimalDigit(s[1])
    case Year4 =>
      && |s| == 4 && (s[0] == '1' || s[0] == '2')
      && IsDecimalDigit(s[1]) && IsDecimalDigit(s[2]) && IsDecimalDigit(s[3])
    case MonthLeading =>
      |s| == 2 && ((s[0] == '0' && '1' <= s[1] <= '9') || (s[0] == '1' && '0' <= s[1] <= '2'))
    case MonthSparse =>
      || (|s| == 1 && '1' <= s[0] <= '9')
      || (|s| == 2 && s[0] == '1' && '0' <= s[1] <= '2')
    case DayLeading =>
      && |s| == 2
      && (|| (s[0] == '0' && '1' <= s[1] <= '9')
          || ((s[0] == '1' || s[0] == '2') && IsDecimalDigit(s[1]))
          || (s[0] == '3' && (s[1] == '0' || s[1] == '1')))
    case DaySparse =>
      || (|s| == 1 && '1' <= s[0] <= '9')
      || (&& |s| == 2
          && (((s[0] == '1' || s[0] == '2') && IsDecimalDigit(s[1])) || (s[0] == '3' && (s[1] == '0' || s[1] == '1'))))
  }

  predicate TokenText(t: DateToken, s: string)
  {
    match t
    case Part(f) => FieldText(f, s)
    case Separator => |s| == 1 && IsDateSeparator(s[0])
    case Mark(c) => s == [c]
  }

  /** `fullmatch` of the concatenated token patterns. Every token matches
      between one and four characters. */
  predicate MatchFormat(fmt: DateFormat, s: string)
    decreases |fmt|
  {
    if fmt == [] then s == []
    else exists w {:trigger TokenText(fmt[0], s[..w])} | 1 <= w <= 4 && w <= |s| ::
      TokenText(fmt[0], s[..w]) && MatchFormat(fmt[1..], s[w..])
  }

  /** `{year}{sep}{month}{sep}{day}`, `sep` being one separator or nothing. */
  function YearMonthDay(y: Field, m: Field, d: Field, sep: DateFormat): DateFormat
  {
    [Part(y)] + sep + [Part(m)] + sep + [Part(d)]
  }

  /** `{day}{sep}{month}{sep}{year}` */
  function DayMonthYear(y: Field, m: Field, d: Field, sep: DateFormat): DateFormat
  {
    [Part(d)] + sep + [Part(m)] + sep + [Part(y)]
  }

  /** `{month}{sep}{day}{sep}{year}` */
  function MonthDayYear(y: Field, m: Field, d: Field, sep: DateFormat): DateFormat
  {
    [Part(m)] + sep + [Part(d)] + sep + [Part(y)]
  }

  /** `{year}年{month}月{day}日` */
  function Chinese(y: Field, m: Field, d: Field): DateFormat
  {
    [Part(y), Mark('\U{5E74}'), Part(m), Mark('\U{6708}'), Part(d), Mark('\U{65E5}')]
  }

  /** `{year}년{month}월{day}일` */
  function Korean(y: Field, m: Field, d: Field): DateFormat
  {
    [Part(y), Mark('\U{B144}'), Part(m), Mark('\U{C6D4}'), Part(d), Mark('\U{C77C}')]
  }

  const Years: seq<Field> := [Year2, Year4]
  const Months: seq<Field> := [MonthLeading, MonthSparse]
  const Days: seq<Field> := [DayLeading, DaySparse]

  /** The five patterns one pass of the first loop numbers, in order. */
  function SeparatedGroup(y: Field, m: Field, d: Field): seq<DateFormat>
  {
    [ YearMonthDay(y, m, d, [Separator]), DayMonthYear(y, m, d, [Separator]),
      MonthDayYear(y, m, d, [Separator]), Chinese(y, m, d), Korean(y, m, d) ]
  }

  /** The Chinese pattern the compact loop adds: the value `pat_cn` still
      holds from the last pass of the first loop. */
  const LeftoverChinese: DateFormat := Chinese(Year4, MonthSparse, DaySparse)

  /** The four patterns one pass of the compact loop numbers, in order. */
  function CompactGroup(y: Field): seq<DateFormat>
  {
    [ YearMonthDay(y, MonthLeading, DayLeading, []), DayMonthYear(y, MonthLeading, DayLeading, []),
      MonthDayYear(y, MonthLeading, DayLeading, []), LeftoverChinese ]
  }

  const DateFormatCount := 48

  /** The format stored under key `date_i`. */
  function DateFormatAt(i: nat): DateFormat
    requires i < DateFormatCount
  {
    if i < 40 then SeparatedGroup(Years[i / 20], Months[i / 10 % 2], Days[i / 5 % 2])[i % 5]
    else CompactGroup(Years[(i - 40) / 4])[(i - 40) % 4]
  }

  lemma SeparatedIndex(yi: nat, mi: nat, di: nat, k: nat)
    requires yi < 2 && mi < 2 && di < 2 && k < 5
    ensures 20 * yi + 10 * mi + 5 * di + k < 40
    ensures DateFormatAt(20 * yi + 10 * mi + 5 * di + k) == SeparatedGroup(Years[yi], Months[mi], Days[di])[k]
  {
    var i := 20 * yi + 10 * mi + 5 * di + k;
    assert i / 20 == yi && i / 10 % 2 == mi && i / 5 % 2 == di && i % 5 == k;
  }

  lemma CompactIndex(yi: nat, k: nat)
    requires yi < 2 && k < 4
    ensures 40 <= 40 + 4 * yi + k < DateFormatCount
    ensures DateFormatAt(40 + 4 * yi + k) == CompactGroup(Years[yi])[k]
  {
  }

  /** One pass of the first loop stores its group under consecutive
      numbers starting at `counter`. */
  lemma SeparatedGroupNumbers(yi: nat, mi: nat, di: nat, counter: nat, group: seq<DateFormat>)
    requires yi < 2 && mi < 2 && di < 2 && counter == 20 * yi + 10 * mi + 5 * di
    requires group == SeparatedGroup(Years[yi], Months[mi], Days[di])
    ensures counter + |group| <= DateFormatCount
    ensures forall k | 0 <= k < |group| :: DateFormatAt(counter + k) == group[k]
  {
    forall k | 0 <= k < |group|
      ensures DateFormatAt(counter + k) == group[k]
    {
      SeparatedIndex(yi, mi, di, k);
    }
  }

  /** One pass of the compact loop stores its group under consecutive
      numbers starting at `counter`. */
  lemma CompactGroupNumbers(yi: nat, counter: nat, group: seq<DateFormat>)
    requires yi < 2 && counter == 40 + 4 * yi
    requires group == CompactGroup(Years[yi])
    ensures counter + |group| <= DateFormatCount
    ensures forall k | 0 <= k < |group| :: DateFormatAt(counter + k) == group[k]
  {
    forall k | 0 <= k < |group|
      ensures DateFormatAt(counter + k) == group[k]
    {
      CompactIndex(yi, k);
    }
  }

  /** The compact loop's Chinese keys repeat key 38, the last Chinese
      pattern of the first loop. */
  lemma LeftoverChineseRepeats()
    ensures DateFormatAt(43) == DateFormatAt(38) == LeftoverChinese
    ensures DateFormatAt(47) == DateFormatAt(38)
  {
  }

  // ---------------------------------------------------------------------
  // what the formats accept
  // ---------------------------------------------------------------------

  lemma FieldTextDigits(f: Field, s: string)
    requires FieldText(f, s)
    ensures 1 <= |s| <= 4 && AllOf(s, IsDecimalDigit)
  {
  }

  /** The characters a token's text may hold all satisfy `p`. */
  predicate TokenWithin(t: DateToken, p: char -> bool)
  {
    match t
    case Part(_) => forall c :: IsDecimalDigit(c) ==> p(c)
    case Separator => p('-') && p('/') && p('.') && p(' ')
    case Mark(c) => p(c)
  }

  lemma TokenTextWithin(t: DateToken, s: string, p: char -> bool)
    requires TokenText(t, s) && TokenWithin(t, p)
    ensures AllOf(s, p)
  {
    if t.Part? {
      FieldTextDigits(t.field, s);
      forall k | 0 <= k < |s| ensures p(s[k]) { AllOfAt(s, IsDecimalDigit, k); }
    }
  }

  /** A match of a format whose tokens all stay within `p` consists of
      characters satisfying `p`. */
  lemma {:induction false} MatchFormatWithin(fmt: DateFormat, s: string, p: char -> bool)
    requires MatchFormat(fmt, s)
    requires forall j | 0 <= j < |fmt| :: TokenWithin(fmt[j], p)
    ensures AllOf(s, p)
    decreases |fmt|
  {
    if fmt != [] {
      var w :| 1 <= w <= 4 && w <= |s| && TokenText(fmt[0], s[..w]) && MatchFormat(fmt[1..], s[w..]);
      TokenTextWithin(fmt[0], s[..w], p);
      MatchFormatWithin(fmt[1..], s[w..], p);
      AllOfConcat(s[..w], s[w..], p);
      assert s[..w] + s[w..] == s;
    }
  }

  lemma ThreeFieldsStart(a: Field, b: Field, c: Field, sep: DateFormat)
    ensures [Part(a)] + sep + [Part(b)] + sep + [Part(c)] != []
    ensures ([Part(a)] + sep + [Part(b)] + sep + [Part(c)])[0] == Part(a)
  {
  }

  lemma SeparatedGroupStarts(y: Field, m: Field, d: Field)
    ensures forall k | 0 <= k < 5 :: SeparatedGroup(y, m, d)[k] != [] && SeparatedGroup(y, m, d)[k][0].Part?
  {
    ThreeFieldsStart(y, m, d, [Separator]);
    ThreeFieldsStart(d, m, y, [Separator]);
    ThreeFieldsStart(m, d, y, [Separator]);
  }

  lemma CompactGroupStarts(y: Field)
    ensures forall k | 0 <= k < 4 :: CompactGroup(y)[k] != [] && CompactGroup(y)[k][0].Part?
  {
  }

  /** Every date format starts with a field. */
  lemma FormatStartsWithField(i: nat)
    requires i < DateFormatCount
    ensures DateFormatAt(i) != [] && DateFormatAt(i)[0].Part?
  {
    if i < 40 {
      SeparatedGroupStarts(Years[i / 20], Months[i / 10 % 2], Days[i / 5 % 2]);
    } else {
      CompactGroupStarts(Years[(i - 40) / 4]);
    }
  }

  /** Every date format starts with a field, so every match starts with a
      decimal digit. */
  lemma DateStartsWithDigit(i: nat, s: string)
    requires i < DateFormatCount && MatchFormat(DateFormatAt(i), s)
    ensures s != [] && IsDecimalDigit(s[0])
  {
    FormatStartsWithField(i);
    var fmt := DateFormatAt(i);
    var w :| 1 <= w <= 4 && w <= |s| && TokenText(fmt[0], s[..w]) && MatchFormat(fmt[1..], s[w..]);
    FieldTextDigits(fmt[0].field, s[..w]);
    AllOfAt(s[..w], IsDecimalDigit, 0);
  }

  /** Concatenating one text per token gives a match. */
  lemma {:induction false} MatchFormatOfPieces(fmt: DateFormat, pieces: seq<string>)
    requires |pieces| == |fmt|
    requires forall j | 0 <= j < |fmt| :: TokenText(fmt[j], pieces[j])
    ensures MatchFormat(fmt, Concat(pieces))
    decreases |fmt|
  {
    if fmt != [] {
      var s := Concat(pieces);
      var w := |pieces[0]|;
      assert TokenText(fmt[0], pieces[0]);
      FieldTextLength(fmt[0], pieces[0]);
      assert s[..w] == pieces[0] && s[w..] == Concat(pieces[1..]);
      MatchFormatOfPieces(fmt[1..], pieces[1..]);
    }
  }

  function Concat(pieces: seq<string>): string
  {
    if pieces == [] then [] else pieces[0] + Concat(pieces[1..])
  }

  lemma FieldTextLength(t: DateToken, s: string)
    requires TokenText(t, s)
    ensures 1 <= |s| <= 4
  {
  }

  /** A match of a format that starts with a field and a mark splits there:
      the field's digits, then the mark. */
  lemma FieldThenMark(f: Field, c: char, rest: DateFormat, s: string) returns (w: nat)
    requires MatchFormat([Part(f), Mark(c)] + rest, s)
    ensures 1 <= w < |s| && FieldText(f, s[..w]) && s[w] == c && MatchFormat(rest, s[w + 1..])
  {
    var fmt := [Part(f), Mark(c)] + rest;
    w := MatchFormatHead(fmt, s);
    var tail := fmt[1..];
    assert tail[0] == Mark(c) && tail[1..] == rest;
    var v := MatchFormatHead(tail, s[w..]);
    assert s[w..][..v] == [c];
    assert s[w..][v..] == s[w + 1..];
  }

  /** The first split point of a match. */
  lemma MatchFormatHead(fmt: DateFormat, s: string) returns (w: nat)
    requires fmt != [] && MatchFormat(fmt, s)
    ensures 1 <= w <= 4 && w <= |s| && TokenText(fmt[0], s[..w]) && MatchFormat(fmt[1..], s[w..])
  {
    w :| 1 <= w <= 4 && w <= |s| && TokenText(fmt[0], s[..w]) && MatchFormat(fmt[1..], s[w..]);
  }

  // ---------------------------------------------------------------------
  // fields as numbers
  // ---------------------------------------------------------------------

  /** A number from 1 to 31 written without a leading zero. */
  function PlainText(n: int): string
    requires 1 <= n < 100
  {
    if n < 10 then [DigitChar(n)] else TwoDigits(n)
  }

  lemma LeadingFieldOf(s: string, hi: int)
    requires |s| == 2 && IsAsciiDigit(s[0]) && IsAsciiDigit(s[1])
    requires 1 <= 10 * DigitValue(s[0]) + DigitValue(s[1]) <= hi < 100
    ensures exists n | 1 <= n <= hi :: s == TwoDigits(n)
  {
    TwoDigitsOf(s);
  }

  lemma SparseFieldOf(s: string, hi: int)
    requires (|s| == 1 && '1' <= s[0] <= '9') || (|s| == 2 && '1' <= s[0] <= '9' && IsAsciiDigit(s[1]))
    requires |s| == 2 ==> 10 * DigitValue(s[0]) + DigitValue(s[1]) <= hi
    requires 9 <= hi < 100
    ensures exists n | 1 <= n <= hi :: s == PlainText(n)
  {
    if |s| == 1 {
      assert s == PlainText(DigitValue(s[0]));
    } else {
      TwoDigitsOf(s);
      assert s == PlainText(10 * DigitValue(s[0]) + DigitValue(s[1]));
    }
  }

  /** The leading-zero month field accepts exactly the months 01 to 12. */
  lemma MonthLeadingIsMonth(s: string)
    ensures FieldText(MonthLeading, s) <==> exists m | 1 <= m <= 12 :: s == TwoDigits(m)
  {
    if FieldText(MonthLeading, s) {
      LeadingFieldOf(s, 12);
    }
  }

  /** The sparse month field accepts exactly the months 1 to 12 written
      without a leading zero. */
  lemma MonthSparseIsMonth(s: string)
    ensures FieldText(MonthSparse, s) <==> exists m | 1 <= m <= 12 :: s == PlainText(m)
  {
    if FieldText(MonthSparse, s) {
      SparseFieldOf(s, 12);
    }
  }

  /** The leading-zero day field accepts the two-digit days 01 to 31 in
      ASCII digits; its `[12]\d` branch also takes a non-ASCII decimal digit
      after a leading 1 or 2. */
  lemma DayLeadingIsDay(s: string)
    ensures (exists d | 1 <= d <= 31 :: s == TwoDigits(d)) ==> FieldText(DayLeading, s)
    ensures FieldText(DayLeading, s) && IsAsciiDigit(s[1]) ==> exists d | 1 <= d <= 31 :: s == TwoDigits(d)
  {
    if FieldText(DayLeading, s) && IsAsciiDigit(s[1]) {
      LeadingFieldOf(s, 31);
    }
  }

  /** The sparse day field accepts the days 1 to 31 written without a
      leading zero, with the same proviso on non-ASCII digits. */
  lemma DaySparseIsDay(s: string)
    ensures (exists d | 1 <= d <= 31 :: s == PlainText(d)) ==> FieldText(DaySparse, s)
    ensures FieldText(DaySparse, s) && (|s| == 2 ==> IsAsciiDigit(s[1])) ==>
      exists d | 1 <= d <= 31 :: s == PlainText(d)
  {
    if FieldText(DaySparse, s) && (|s| == 2 ==> IsAsciiDigit(s[1])) {
      SparseFieldOf(s, 31);
    }
  }
}
