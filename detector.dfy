/**
 * The `TypeDetector` object (ccsv/detect_type.py:92-286): its pattern table,
 * the construction of the date patterns, `_run_regex`, the type tests and
 * the ordered dispatch.
 *
 * Module CellTypes is the specification: its pure predicates state what each
 * test accepts, and the lemmas about the tests are proved there. The methods
 * here follow the source step by step (table lookups, the loops over the
 * pattern keys and over the tests, their early returns), and each one's
 * `ensures` ties it to that specification: each type test computes the
 * CellTypes predicate of the same name, `DetectType` computes
 * `CellTypes.Detect`, and `InitDatePatterns` adds the closed-form entries
 * of module PatternCatalog.
 */
module Detector {
  import opened Text
  import opened DateFormats
  import Patterns
  import PatternCatalog
  import CellTypes

  /** Adding the next numbered date pattern extends the table by one key. */
  lemma AddDatePattern(base: map<string, PatternCatalog.Pattern>, n: nat)
    requires n < DateFormatCount
    ensures base + PatternCatalog.DatePatterns(n + 1)
         == (base + PatternCatalog.DatePatterns(n))[PatternCatalog.DateKey(n) := PatternCatalog.Date(DateFormatAt(n))]
  {
  }

  class TypeDetector {
    const stripWhitespace: bool
    var patterns: map<string, PatternCatalog.Pattern>

    /** The table holds the entries of PATTERNS (without unix_path) and the
        48 numbered date patterns, and no other entry whose name starts
        with `date_`. */
    ghost predicate Valid()
      reads this
    {
      PatternCatalog.IsCatalog(patterns)
    }

    constructor (stripWhitespace: bool)
      ensures this.stripWhitespace == stripWhitespace
      ensures Valid()
    {
      this.stripWhitespace := stripWhitespace;
      patterns := PatternCatalog.BasePatterns();
      new;
      InitDatePatterns();
      PatternCatalog.CatalogIsCatalog();
    }

    /** _init_date_patterns: numbers the date patterns `date_0` .. `date_47`
        in loop order and adds them to the table. The compact loop reuses
        `pat_cn` as the first loop left it. */
    method InitDatePatterns()
      modifies this
      ensures patterns == old(patterns) + PatternCatalog.DatePatterns(DateFormatCount)
    {
      var counter := 0;
      var patCn: DateFormat := [];
      for yi := 0 to |Years|
        invariant counter == 20 * yi
        invariant patterns == old(patterns) + PatternCatalog.DatePatterns(counter)
        invariant yi == |Years| ==> patCn == LeftoverChinese
      {
        for mi := 0 to |Months|
          invariant counter == 20 * yi + 10 * mi
          invariant patterns == old(patterns) + PatternCatalog.DatePatterns(counter)
          invariant yi == |Years| - 1 && mi == |Months| ==> patCn == LeftoverChinese
        {
          for di := 0 to |Days|
            invariant counter == 20 * yi + 10 * mi + 5 * di
            invariant patterns == old(patterns) + PatternCatalog.DatePatterns(counter)
            invariant yi == |Years| - 1 && mi == |Months| - 1 && di == |Days| ==> patCn == LeftoverChinese
          {
            var year, month, day := Years[yi], Months[mi], Days[di];
            var pat1 := YearMonthDay(year, month, day, [Separator]);
            var pat2 := DayMonthYear(year, month, day, [Separator]);
            var pat3 := MonthDayYear(year, month, day, [Separator]);
            patCn := Chinese(year, month, day);
            var patKo := Korean(year, month, day);
            var group := [pat1, pat2, pat3, patCn, patKo];
            SeparatedGroupNumbers(yi, mi, di, counter, group);
            counter := StoreDatePatterns(group, counter, old(patterns));
          }
        }
      }
      for yi := 0 to |Years|
        invariant counter == 40 + 4 * yi
        invariant patterns == old(patterns) + PatternCatalog.DatePatterns(counter)
      {
        var year := Years[yi];
        var pat1 := YearMonthDay(year, MonthLeading, DayLeading, []);
        var pat2 := DayMonthYear(year, MonthLeading, DayLeading, []);
        var pat3 := MonthDayYear(year, MonthLeading, DayLeading, []);
        var group := [pat1, pat2, pat3, patCn];
        CompactGroupNumbers(yi, counter, group);
        counter := StoreDatePatterns(group, counter, old(patterns));
      }
    }

    /** The inner loops of _init_date_patterns: stores each pattern of
        `group` under `date_<counter>`, counting up. */
    method StoreDatePatterns(group: seq<DateFormat>, counter: nat, ghost base: map<string, PatternCatalog.Pattern>)
      returns (next: nat)
      requires counter + |group| <= DateFormatCount
      requires forall k | 0 <= k < |group| :: DateFormatAt(counter + k) == group[k]
      requires patterns == base + PatternCatalog.DatePatterns(counter)
      modifies this
      ensures next == counter + |group|
      ensures patterns == base + PatternCatalog.DatePatterns(next)
    {
      next := counter;
      for k := 0 to |group|
        invariant next == counter + k
        invariant patterns == base + PatternCatalog.DatePatterns(next)
      {
        AddDatePattern(base, next);
        patterns := patterns[PatternCatalog.DateKey(next) := PatternCatalog.Date(group[k])];
        next := next + 1;
      }
    }

    /** _run_regex: fullmatch of the named pattern against the cell, without
        its surrounding spaces when the detector strips. A missing name is
        an error in the source, so the name must be in the table. */
    method RunRegex(cell: string, name: string) returns (r: bool)
      requires name in patterns
      ensures r == PatternCatalog.FullMatch(patterns[name], CellTypes.Prepare(stripWhitespace, cell))
    {
      var s := cell;
      if stripWhitespace {
        s := StripSpaces(cell);
      }
      r := PatternCatalog.FullMatch(patterns[name], s);
    }

    method IsNumber(cell: string) returns (r: bool)
      requires Valid()
      ensures r == CellTypes.IsNumber(stripWhitespace, cell)
    {
      PatternCatalog.NumberEntries(patterns);
      if cell == "" {
        return false;
      }
      r := RunRegex(cell, "number_1");
      if r {
        return;
      }
      r := RunRegex(cell, "number_2");
      if r {
        return;
      }
      r := RunRegex(cell, "number_3");
    }

    method IsUrlOrEmail(cell: string) returns (r: bool)
      requires Valid()
      ensures r == CellTypes.IsUrlOrEmail(stripWhitespace, cell)
    {
      PatternCatalog.TextEntries(patterns);
      r := RunRegex(cell, "url");
      if !r {
        r := RunRegex(cell, "email");
      }
    }

    method IsUnicodeAlphanum(cell: string) returns (r: bool)
      requires Valid()
      ensures r == CellTypes.IsUnicodeAlphanum(stripWhitespace, cell)
    {
      PatternCatalog.TextEntries(patterns);
      r := RunRegex(cell, "unicode_alphanum");
    }

    /** is_date: a number is never a date; otherwise the date patterns are
        tried. */
    method IsDate(cell: string) returns (r: bool)
      requires Valid()
      ensures r == CellTypes.IsDate(stripWhitespace, cell)
    {
      var number := IsNumber(cell);
      if number {
        return false;
      }
      r := MatchesDatePattern(cell);
      DateEntriesAreFormats(patterns, CellTypes.Prepare(stripWhitespace, cell));
    }

    /** The loop of is_date: tries every table entry whose name starts with
        `date_`, in no particular order, and stops at the first that
        matches. */
    method MatchesDatePattern(cell: string) returns (r: bool)
      ensures r == SomeDateEntryMatches(patterns, CellTypes.Prepare(stripWhitespace, cell))
    {
      ghost var s := CellTypes.Prepare(stripWhitespace, cell);
      var remaining := patterns.Keys;
      while remaining != {}
        invariant remaining <= patterns.Keys
        invariant NoDateMatchAmong(patterns, patterns.Keys - remaining, s)
        decreases |remaining|
      {
        var name :| name in remaining;
        ghost var done := patterns.Keys - remaining;
        remaining := remaining - {name};
        assert patterns.Keys - remaining == done + {name};
        if StartsWith(name, "date_") {
          r := RunRegex(cell, name);
          if r {
            return;
          }
        }
        NoDateMatchAdd(patterns, done, name, s);
      }
      r := false;
    }

    method IsTime(cell: string) returns (r: bool)
      requires Valid()
      ensures r == CellTypes.IsTime(stripWhitespace, cell)
    {
      PatternCatalog.TimeEntries(patterns);
      r := RunRegex(cell, "time_hmm");
      if !r {
        r := RunRegex(cell, "time_hhmm");
      }
      if !r {
        r := RunRegex(cell, "time_hhmmss");
      }
    }

    method IsEmpty(cell: string) returns (r: bool)
      ensures r == CellTypes.IsEmpty(stripWhitespace, cell)
    {
      var s := cell;
      if stripWhitespace {
        s := StripSpaces(cell);
      }
      r := s == "";
    }

    method IsPercentage(cell: string) returns (r: bool)
      requires Valid()
      ensures r == CellTypes.IsPercentage(stripWhitespace, cell)
    {
      var s := cell;
      if stripWhitespace {
        s := StripSpaces(cell);
      }
      if !EndsWith(s, '%') {
        return false;
      }
      r := IsNumber(RStripChar(s, '%'));
    }

    /** is_currency: the match's group 1 must itself be a number. */
    method IsCurrency(cell: string) returns (r: bool)
      requires Valid()
      ensures r == CellTypes.IsCurrency(stripWhitespace, cell)
    {
      PatternCatalog.TextEntries(patterns);
      var s := cell;
      if stripWhitespace {
        s := StripSpaces(cell);
      }
      assert s == CellTypes.Prepare(stripWhitespace, cell);
      var m := PatternCatalog.FullMatch(patterns["currency"], s);
      assert m == Patterns.CurrencyGroup(s).Some?;
      if !m {
        return false;
      }
      var grp := Patterns.CurrencyGroup(s).value;
      r := IsNumber(grp);
    }

    /** The offset branch of is_datetime, shared by the '+' and '-' cases. */
    method OffsetTime(t: string, sign: char) returns (r: bool)
      requires Valid() && sign in t
      ensures r == CellTypes.OffsetTime(stripWhitespace, t, sign)
    {
      var subparts := Split(t, sign);
      var isTime1 := IsTime(subparts[0]);
      var isTime2 := IsTime(subparts[1]);
      if !isTime1 {
        return false;
      }
      if isTime2 {
        return true;
      }
      PatternCatalog.CompactTimeEntries(patterns);
      r := RunRegex(subparts[1], "time_HHMM");
      assert r == Patterns.TimeCompact(CellTypes.Prepare(stripWhitespace, subparts[1]));
      if r {
        return;
      }
      r := RunRegex(subparts[1], "time_HH");
    }

    method IsDatetime(cell: string) returns (r: bool)
      requires Valid()
      ensures r == CellTypes.IsDatetime(stripWhitespace, cell)
    {
      if ' ' in cell {
        var parts := Split(cell, ' ');
        if |parts| > 2 {
          return false;
        }
        r := IsDate(parts[0]);
        if r {
          r := IsTime(parts[1]);
        }
      } else if 'T' in cell {
        var parts := Split(cell, 'T');
        if |parts| > 2 {
          return false;
        }
        var isDate := IsDate(parts[0]);
        if !isDate {
          return false;
        }
        r := IsTime(parts[1]);
        if r {
          return;
        }
        if '+' in parts[1] {
          r := OffsetTime(parts[1], '+');
        } else if '-' in parts[1] {
          r := OffsetTime(parts[1], '-');
        }
      } else {
        r := false;
      }
    }

    method IsNan(cell: string) returns (r: bool)
      ensures r == CellTypes.IsNan(stripWhitespace, cell)
    {
      var s := cell;
      if stripWhitespace {
        s := StripSpaces(cell);
      }
      r := LowerAscii(s) == "n/a";
    }

    /** One entry of detect_type's list of tests. */
    method RunTest(t: CellTypes.CellType, cell: string) returns (r: bool)
      requires Valid()
      ensures r == CellTypes.Holds(stripWhitespace, cell, t)
    {
      match t
      case Empty => r := IsEmpty(cell);
      case UrlOrEmail => r := IsUrlOrEmail(cell);
      case Number => r := IsNumber(cell);
      case Time => r := IsTime(cell);
      case Percentage => r := IsPercentage(cell);
      case Currency => r := IsCurrency(cell);
      case UnicodeAlphanum => r := IsUnicodeAlphanum(cell);
      case Nan => r := IsNan(cell);
      case Date => r := IsDate(cell);
      case Datetime => r := IsDatetime(cell);
    }

    /** detect_type: runs the tests in order and returns the first type
        whose test holds. */
    method DetectType(cell: string) returns (r: Option<CellTypes.CellType>)
      requires Valid()
      ensures r == CellTypes.Detect(stripWhitespace, cell)
    {
      CellTypes.DetectFromStart(stripWhitespace, cell);
      for j := 0 to |CellTypes.TypeOrder|
        invariant CellTypes.DetectFrom(stripWhitespace, cell, j) == CellTypes.Detect(stripWhitespace, cell)
      {
        var holds := RunTest(CellTypes.TypeOrder[j], cell);
        if holds {
          return Some(CellTypes.TypeOrder[j]);
        }
      }
      r := None;
    }

    method IsKnownType(cell: string) returns (r: bool)
      requires Valid()
      ensures r == CellTypes.IsKnown(stripWhitespace, cell)
    {
      var t := DetectType(cell);
      r := t != None;
    }
  }

  /** No entry among `names` whose name starts with `date_` matches `s`. */
  ghost predicate NoDateMatchAmong(m: map<string, PatternCatalog.Pattern>, names: set<string>, s: string)
  {
    forall name | name in names && name in m && StartsWith(name, "date_") :: !PatternCatalog.FullMatch(m[name], s)
  }

  lemma NoDateMatchAdd(m: map<string, PatternCatalog.Pattern>, done: set<string>, name: string, s: string)
    requires NoDateMatchAmong(m, done, s)
    requires name in m && StartsWith(name, "date_") ==> !PatternCatalog.FullMatch(m[name], s)
    ensures NoDateMatchAmong(m, done + {name}, s)
  {
  }

  /** Some entry whose name starts with `date_` matches `s`. */
  ghost predicate SomeDateEntryMatches(m: map<string, PatternCatalog.Pattern>, s: string)
  {
    exists name | name in m && StartsWith(name, "date_") :: PatternCatalog.FullMatch(m[name], s)
  }

  /** In a detector's table, the entries named `date_...` are the date
      formats: one of them matches exactly when one of the formats does. */
  lemma DateEntriesAreFormats(m: map<string, PatternCatalog.Pattern>, s: string)
    requires PatternCatalog.IsCatalog(m)
    ensures SomeDateEntryMatches(m, s) <==>
      exists i | 0 <= i < DateFormatCount :: MatchFormat(DateFormatAt(i), s)
  {
    if SomeDateEntryMatches(m, s) {
      var name :| name in m && StartsWith(name, "date_") && PatternCatalog.FullMatch(m[name], s);
      var i :| 0 <= i < DateFormatCount && name == PatternCatalog.DateKey(i);
    }
    if i :| 0 <= i < DateFormatCount && MatchFormat(DateFormatAt(i), s) {
      PatternCatalog.DateKeyIsDate(i);
      assert PatternCatalog.FullMatch(m[PatternCatalog.DateKey(i)], s);
    }
  }
}
