/**
 * The pattern table of a detector: the fixed patterns of PATTERNS
 * (ccsv/detect_type.py:71-89) under their names, plus the date patterns
 * `date_0` .. `date_47` that `_init_date_patterns` adds.
 */
module PatternCatalog {
  import Patterns
  import opened Text
  import opened DateFormats

  /** A compiled pattern: which language it recognises. */
  datatype Pattern =
    | Number1 | Number2 | Number3 | Url | Email | UnicodeAlphanum
    | TimeHHMMSS | TimeHHMM | TimeHHMMCompact | TimeHH | TimeHMM | Currency
    | Date(format: DateFormat)

  /** `pattern.fullmatch(s) is not None` */
  predicate FullMatch(p: Pattern, s: string)
  {
    match p
    case Number1 => Patterns.Number1(s)
    case Number2 => Patterns.Number2(s)
    case Number3 => Patterns.Number3(s)
    case Url => Patterns.Url(s)
    case Email => Patterns.Email(s)
    case UnicodeAlphanum => Patterns.UnicodeAlphanum(s)
    case TimeHHMMSS => Patterns.TimeHHMMSS(s)
    case TimeHHMM => Patterns.TimeHHMM(s)
    case TimeHHMMCompact => Patterns.TimeCompact(s)
    case TimeHH => Patterns.TimeCompact(s)
    case TimeHMM => Patterns.TimeHMM(s)
    case Currency => Patterns.CurrencyGroup(s).Some?
    case Date(f) => MatchFormat(f, s)
  }

  /** The named patterns of PATTERNS that the detector uses. */
  function BasePatterns(): map<string, Pattern>
  {
    map[
      "number_1" := Number1, "number_2" := Number2, "number_3" := Number3,
      "url" := Url, "email" := Email, "unicode_alphanum" := UnicodeAlphanum,
      "time_hhmmss" := TimeHHMMSS, "time_hhmm" := TimeHHMM, "time_HHMM" := TimeHHMMCompact,
      "time_HH" := TimeHH, "time_hmm" := TimeHMM, "currency" := Currency
    ]
  }

  /** `"%i" % n`: decimal digits without leading zeros. */
  function NatToDecimal(n: nat): (r: string)
    ensures r != [] && (forall k | 0 <= k < |r| :: '0' <= r[k] <= '9')
  {
    if n < 10 then [Patterns.DigitChar(n)] else NatToDecimal(n / 10) + [Patterns.DigitChar(n % 10)]
  }

  /** The value of a string of ASCII digits. */
  function DecimalValue(s: string): nat
    requires forall k | 0 <= k < |s| :: '0' <= s[k] <= '9'
  {
    if s == [] then 0 else 10 * DecimalValue(s[..|s| - 1]) + (s[|s| - 1] as int - '0' as int)
  }

  /** Reading back the decimal text of `n` gives `n`. */
  lemma {:induction false} DecimalRoundTrip(n: nat)
    ensures DecimalValue(NatToDecimal(n)) == n
  {
    if n >= 10 {
      DecimalRoundTrip(n / 10);
      var s := NatToDecimal(n);
      assert s[..|s| - 1] == NatToDecimal(n / 10);
    }
  }

  /** `"date_%i" % i` */
  function DateKey(i: nat): string
  {
    "date_" + NatToDecimal(i)
  }

  lemma DateKeyInjective(i: nat, j: nat)
    requires DateKey(i) == DateKey(j)
    ensures i == j
  {
    assert NatToDecimal(i) == DateKey(i)[5..] == DateKey(j)[5..] == NatToDecimal(j);
    DecimalRoundTrip(i);
    DecimalRoundTrip(j);
  }

  lemma DateKeysBelow(n: nat)
    ensures forall i | 0 <= i < n :: DateKey(i) != DateKey(n)
  {
    forall i | 0 <= i < n ensures DateKey(i) != DateKey(n) {
      if DateKey(i) == DateKey(n) { DateKeyInjective(i, n); }
    }
  }

  /** The date patterns numbered below `n`. */
  function DatePatterns(n: nat): map<string, Pattern>
    requires n <= DateFormatCount
  {
    if n == 0 then map[] else DatePatterns(n - 1)[DateKey(n - 1) := Date(DateFormatAt(n - 1))]
  }

  /** Every pattern numbered below `n` is stored under its key. */
  lemma {:induction false} DatePatternsEntries(n: nat, i: nat)
    requires i < n <= DateFormatCount
    ensures DateKey(i) in DatePatterns(n) && DatePatterns(n)[DateKey(i)] == Date(DateFormatAt(i))
  {
    if i < n - 1 {
      DatePatternsEntries(n - 1, i);
      DateKeysBelow(n - 1);
    }
  }

  /** The date patterns numbered below `n` have no other keys. */
  lemma {:induction false} DatePatternsKeys(n: nat, key: string)
    requires n <= DateFormatCount && key in DatePatterns(n)
    ensures exists i | 0 <= i < n :: key == DateKey(i)
  {
    if key != DateKey(n - 1) {
      DatePatternsKeys(n - 1, key);
    }
  }

  /** The table a detector holds once constructed. */
  function Catalog(): map<string, Pattern>
  {
    BasePatterns() + DatePatterns(DateFormatCount)
  }

  /** No fixed pattern's name starts with `date_`. */
  lemma BaseNamesAreNotDates(key: string)
    requires key in BasePatterns()
    ensures !StartsWith(key, "date_")
  {
    assert key in {"number_1", "number_2", "number_3", "url", "email", "unicode_alphanum",
                   "time_hhmmss", "time_hhmm", "time_HHMM", "time_HH", "time_hmm", "currency"};
    assert |key| < 5 || key[0] != 'd';
  }

  /** The names in the table that start with `date_` are exactly
      `date_0` .. `date_47`. */
  lemma CatalogDateNames(key: string)
    ensures (key in Catalog() && StartsWith(key, "date_")) <==>
      exists i | 0 <= i < DateFormatCount :: key == DateKey(i)
  {
    if key in Catalog() && StartsWith(key, "date_") {
      if key in BasePatterns() {
        BaseNamesAreNotDates(key);
      } else {
        DatePatternsKeys(DateFormatCount, key);
      }
    }
    if exists i | 0 <= i < DateFormatCount :: key == DateKey(i) {
      var i :| 0 <= i < DateFormatCount && key == DateKey(i);
      CatalogDateEntry(i);
    }
  }

  lemma DateKeyIsDate(i: nat)
    ensures StartsWith(DateKey(i), "date_")
  {
    assert DateKey(i)[..5] == "date_";
  }

  /** Key `date_<i>` holds the date format numbered `i`. */
  lemma CatalogDateEntry(i: nat)
    requires i < DateFormatCount
    ensures DateKey(i) in Catalog() && StartsWith(DateKey(i), "date_")
    ensures Catalog()[DateKey(i)] == Date(DateFormatAt(i))
  {
    DatePatternsEntries(DateFormatCount, i);
    DateKeyIsDate(i);
  }

  /** The fixed patterns keep their entries in the table. */
  lemma CatalogBaseEntry(key: string)
    requires key in BasePatterns()
    ensures key in Catalog() && Catalog()[key] == BasePatterns()[key]
  {
    if key in DatePatterns(DateFormatCount) {
      DatePatternsKeys(DateFormatCount, key);
      var i :| 0 <= i < DateFormatCount && key == DateKey(i);
      DateKeyIsDate(i);
      BaseNamesAreNotDates(key);
    }
  }

  /** What a detector's table holds: every fixed pattern under its name,
      the date format numbered `i` under `date_<i>`, and no other entry
      whose name starts with `date_`. */
  ghost predicate IsCatalog(m: map<string, Pattern>)
  {
    && (forall key | key in BasePatterns() :: key in m && m[key] == BasePatterns()[key])
    && (forall i | 0 <= i < DateFormatCount :: DateKey(i) in m && m[DateKey(i)] == Date(DateFormatAt(i)))
    && (forall key {:trigger StartsWith(key, "date_")} | key in m && StartsWith(key, "date_") ::
          exists i | 0 <= i < DateFormatCount :: key == DateKey(i))
  }

  /** The table built from PATTERNS and the numbered date patterns is such
      a table. */
  lemma CatalogIsCatalog()
    ensures IsCatalog(Catalog())
  {
    forall key | key in BasePatterns()
      ensures key in Catalog() && Catalog()[key] == BasePatterns()[key]
    {
      CatalogBaseEntry(key);
    }
    forall i | 0 <= i < DateFormatCount
      ensures DateKey(i) in Catalog() && Catalog()[DateKey(i)] == Date(DateFormatAt(i))
    {
      CatalogDateEntry(i);
    }
    forall key | key in Catalog() && StartsWith(key, "date_")
      ensures exists i | 0 <= i < DateFormatCount :: key == DateKey(i)
    {
      CatalogDateNames(key);
    }
  }

  /** A fixed pattern keeps its entry in such a table. */
  lemma BaseEntry(m: map<string, Pattern>, key: string)
    requires IsCatalog(m) && key in BasePatterns()
    ensures key in m && m[key] == BasePatterns()[key]
  {
  }

  lemma NumberEntries(m: map<string, Pattern>)
    requires IsCatalog(m)
    ensures "number_1" in m && m["number_1"] == Number1
    ensures "number_2" in m && m["number_2"] == Number2
    ensures "number_3" in m && m["number_3"] == Number3
  {
    BaseEntry(m, "number_1");
    BaseEntry(m, "number_2");
    BaseEntry(m, "number_3");
  }

  lemma TextEntries(m: map<string, Pattern>)
    requires IsCatalog(m)
    ensures "url" in m && m["url"] == Url
    ensures "email" in m && m["email"] == Email
    ensures "unicode_alphanum" in m && m["unicode_alphanum"] == UnicodeAlphanum
    ensures "currency" in m && m["currency"] == Currency
  {
    BaseEntry(m, "url");
    BaseEntry(m, "email");
    BaseEntry(m, "unicode_alphanum");
    BaseEntry(m, "currency");
  }

  lemma CompactTimeEntries(m: map<string, Pattern>)
    requires IsCatalog(m)
    ensures "time_HHMM" in m && m["time_HHMM"] == TimeHHMMCompact
    ensures "time_HH" in m && m["time_HH"] == TimeHH
  {
    BaseEntry(m, "time_HHMM");
    BaseEntry(m, "time_HH");
  }

  lemma TimeEntries(m: map<string, Pattern>)
    requires IsCatalog(m)
    ensures "time_hhmmss" in m && m["time_hhmmss"] == TimeHHMMSS
    ensures "time_hhmm" in m && m["time_hhmm"] == TimeHHMM
    ensures "time_HHMM" in m && m["time_HHMM"] == TimeHHMMCompact
    ensures "time_HH" in m && m["time_HH"] == TimeHH
    ensures "time_hmm" in m && m["time_hmm"] == TimeHMM
  {
    BaseEntry(m, "time_hhmmss");
    BaseEntry(m, "time_hhmm");
    BaseEntry(m, "time_HHMM");
    BaseEntry(m, "time_HH");
    BaseEntry(m, "time_hmm");
  }

  /** The fixed entries of such a table, name by name. */
  lemma BaseEntries(m: map<string, Pattern>)
    requires IsCatalog(m)
    ensures "number_1" in m && m["number_1"] == Number1
    ensures "number_2" in m && m["number_2"] == Number2
    ensures "number_3" in m && m["number_3"] == Number3
    ensures "url" in m && m["url"] == Url
    ensures "email" in m && m["email"] == Email
    ensures "unicode_alphanum" in m && m["unicode_alphanum"] == UnicodeAlphanum
    ensures "time_hhmmss" in m && m["time_hhmmss"] == TimeHHMMSS
    ensures "time_hhmm" in m && m["time_hhmm"] == TimeHHMM
    ensures "time_HHMM" in m && m["time_HHMM"] == TimeHHMMCompact
    ensures "time_HH" in m && m["time_HH"] == TimeHH
    ensures "time_hmm" in m && m["time_hmm"] == TimeHMM
    ensures "currency" in m && m["currency"] == Currency
  {
    NumberEntries(m);
    TextEntries(m);
    TimeEntries(m);
  }
}
