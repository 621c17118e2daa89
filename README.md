# CleverCSV cell-type detection, modelled in Dafny

This project models the type detector of CleverCSV (`ccsv/detect_type.py`).
CleverCSV scores a candidate dialect partly by how many of the cells it
produces have a recognisable type. The model covers:

- the cell tests of `TypeDetector`: empty, URL or e-mail, number, time,
  percentage, currency, alphanumeric, "n/a", date and date-time;
- the ordered dispatch `detect_type` and `is_known_type`;
- the construction of the 48 numbered date patterns in
  `_init_date_patterns`;
- the loop over the pattern table in `is_date`;
- `gen_known_type`, and the counting and ratio of `type_score`.

Layout, one module per file:

| file | module | contents |
|---|---|---|
| `text.dfy` | `Text` | `str.strip(" ")`, `lstrip`/`rstrip` of one character, `split` on one character, `startswith`/`endswith`, ASCII `lower` |
| `unicode.dfy` | `Unicode` | the character classes the patterns use (`\d`, `\p{N}`, `\p{L}`, `\p{Sc}`, `\s`, `\w`) and the allowed specials of `SPECIALS_ALLOWED` |
| `patterns.dfy` | `Patterns` | a recogniser for every pattern of `PATTERNS` the detector uses; for number_1 and unicode_alphanum, a proof that it equals a direct transcription of the regular expression |
| `date_formats.dfy` | `DateFormats` | date patterns as token sequences, their full match, and the closed form `DateFormatAt(i)` of the pattern stored under `date_<i>` |
| `catalog.dfy` | `PatternCatalog` | the pattern table: the fixed entries, the keys `date_<i>`, and the invariant `IsCatalog` that every detector's table satisfies |
| `cell_types.dfy` | `CellTypes` | the specification: each test as a pure predicate of the strip setting and the cell, the ordered `Detect`, and lemmas about how the tests relate |
| `detector.dfy` | `Detector` | the class `TypeDetector` with its mutable pattern table. Each type test is proved to compute the `CellTypes` predicate of the same name, and `DetectType` to compute `CellTypes.Detect`; `_init_date_patterns`, `is_date` and `detect_type` keep their loops |
| `scoring.dfy` | `Scoring` | the methods `GenKnownType` and `TypeScore`, the pure `Score` they are proved against, and its bounds |
| `properties.dfy` | `Examples` | worked examples: particular cells and the label each receives |

Regular expressions are not interpreted. Each pattern is a hand-written
predicate for the strings its `fullmatch` accepts. For number_1 (with its
conditional groups) and for unicode_alphanum, that predicate is proved
equal to a literal transcription of the expression (`Number1Exact`,
`UnicodeAlphanumExact`).

Behaviour of the code that a reader might not expect:

- `is_datetime` splits the cell as given, before any stripping, even when
  the detector strips spaces. `" 2023-01-01 12:00"` therefore has three
  parts and is not a date-time.
- The compact loop of `_init_date_patterns` stores `pat_cn` as the first
  loop left it. `date_43` and `date_47` are both the Chinese pattern with a
  four-digit year, a month without padding and a day without padding (the
  same as `date_38`). Neither is a compact Chinese pattern
  (`LeftoverChineseRepeats`).
- The alphanumeric pattern starts with a run of `\p{N}` characters, not
  only decimal digits.
- The lookahead of number_1 is the class `[+-\.\d]`, whose range `+-\.`
  also holds `,`. So `","` passes the lookahead, but it is not a number
  (`LoneMarks`).

## Model

| member | source | states |
|---|---|---|
| Text.LStripChar | ccsv/detect_type.py:174-175 | the result is a suffix of the input, everything dropped is the stripped character, and the result does not start with it |
| Text.RStripChar | ccsv/detect_type.py:222 | the result is a prefix of the input, everything dropped is `%` (the given character), and the result does not end with it |
| Text.StripSpacesShape | ccsv/detect_type.py:174-175 | `strip(" ")` leaves a text that neither starts nor ends with a space, and the input is that text padded with spaces on both sides |
| Text.StripSpacesOfPadded | ccsv/detect_type.py:174-175 | stripping a text padded with any number of spaces on either side gives back the text, if it has no space at its ends |
| Text.Split | ccsv/detect_type.py:238 | `split` yields at least one part, two or more exactly when the separator occurs, no part holds the separator, and joining the parts gives the input back |
| Text.SplitJoin | ccsv/detect_type.py:238 | splitting the join of separator-free parts gives the parts back (the inverse of `Join`) |
| Text.SplitAtFirst | ccsv/detect_type.py:238-246 | the first part of a split is the text before the first separator, followed by the split of the rest |
| Unicode.ClassRelations | ccsv/detect_type.py:77-87 | an ASCII digit is a decimal digit and a decimal digit is `\p{N}`; no character is both `\p{N}` and `\p{L}`; currency symbols and whitespace are neither |
| Patterns.Number1Exact | ccsv/detect_type.py:72 | the number_1 recogniser accepts exactly what the literal reading of the pattern accepts: lookahead, optional sign, optional integer part without a leading zero, then the dot or comma branch |
| Patterns.NumberTailExact | ccsv/detect_type.py:72 | the tail after the integer part is accepted exactly when the dot branch or the comma branch of the conditional groups accepts it |
| Patterns.NumberTailStart | ccsv/detect_type.py:72 | a non-empty tail never starts with a digit or a sign, so the integer part is the whole run of leading digits |
| Patterns.DigitRunIsNumber | ccsv/detect_type.py:72 | a run of digits with a non-zero first digit matches number_1 |
| Patterns.NumberChars | ccsv/detect_type.py:72-74 | whatever number_1, number_2 or number_3 accepts is non-empty, made of digits, signs, `.`, `,`, `e` and `E`, and does not start with an ASCII letter |
| Patterns.GroupsChars | ccsv/detect_type.py:73-74 | the thousands groups and decimal part of number_2 and number_3 use only number characters |
| Patterns.TimeTextIsClock | ccsv/detect_type.py:82-86 | time_hmm, time_hhmm or time_hhmmss accepts a text exactly when it is a clock reading `h:mm`, `hh:mm` or `hh:mm:ss` with hour below 24 and minutes and seconds below 60 |
| Patterns.ShortClockIsTime | ccsv/detect_type.py:86 | every single-digit hour with two-digit minutes below 60 matches time_hmm |
| Patterns.HourMinuteClockIsTime | ccsv/detect_type.py:83 | every hour below 24 and minute below 60, both padded to two digits, matches time_hhmm |
| Patterns.FullClockIsTime | ccsv/detect_type.py:82 | every padded hour, minute and second in range matches time_hhmmss |
| Patterns.ShortTimeIsClock | ccsv/detect_type.py:86 | a four-character match of time_hmm is a single-digit hour and minutes below 60 |
| Patterns.HourMinuteIsClock | ccsv/detect_type.py:83-86 | a five-character `hh:mm` match has hour below 24 and minutes below 60 |
| Patterns.FullTimeIsClock | ccsv/detect_type.py:82 | a time_hhmmss match is an hour below 24 with minutes and seconds below 60 |
| Patterns.UnicodeAlphanumExact | ccsv/detect_type.py:77-81 | the alphanumeric recogniser accepts exactly the union of the two alternatives: numerics, letters, then token characters; or letters, then at least one token character |
| Patterns.NumberLedToAlphanum | ccsv/detect_type.py:77-79 | numerics, then letters, then token characters (digits, letters, space, allowed specials) are alphanumeric |
| Patterns.LetterLedToAlphanum | ccsv/detect_type.py:79-81 | letters followed by at least one token character are alphanumeric |
| Patterns.UrlOrEmailShape | ccsv/detect_type.py:75-76 | a URL or e-mail holds `@`, or has at least five characters of which the first three are ASCII letters |
| DateFormats.SeparatedIndex | ccsv/detect_type.py:115-131 | the pattern numbered `20*y + 10*m + 5*d + k` is the `k`-th of the five patterns the first loop builds for year `y`, month `m` and day `d` |
| DateFormats.CompactIndex | ccsv/detect_type.py:134-146 | the pattern numbered `40 + 4*y + k` is the `k`-th of the four patterns the compact loop builds for year `y` |
| DateFormats.SeparatedGroupNumbers | ccsv/detect_type.py:115-131 | when the counter is `20*y + 10*m + 5*d`, the five patterns of that pass are stored under consecutive numbers |
| DateFormats.CompactGroupNumbers | ccsv/detect_type.py:134-146 | when the counter is `40 + 4*y`, the four patterns of that pass are stored under consecutive numbers |
| DateFormats.LeftoverChineseRepeats | ccsv/detect_type.py:126-144 | `date_43` and `date_47` repeat `date_38`: the Chinese pattern left over from the last pass of the first loop |
| DateFormats.FormatStartsWithField | ccsv/detect_type.py:122-141 | every one of the 48 date patterns starts with a year, month or day field |
| DateFormats.DateStartsWithDigit | ccsv/detect_type.py:104-146 | every text a date pattern accepts starts with a decimal digit |
| DateFormats.MatchFormatWithin | ccsv/detect_type.py:104-127 | a match is made only of characters its tokens allow |
| DateFormats.MatchFormatOfPieces | ccsv/detect_type.py:122-127 | concatenating one accepted text per token gives a match of the whole pattern |
| DateFormats.FieldTextDigits | ccsv/detect_type.py:104-111 | a year, month or day field is one to four decimal digits |
| DateFormats.MonthLeadingIsMonth | ccsv/detect_type.py:107 | the padded month field accepts exactly the months 1 to 12 written with two digits |
| DateFormats.MonthSparseIsMonth | ccsv/detect_type.py:108 | the unpadded month field accepts exactly the months 1 to 12 written without a leading zero |
| DateFormats.DayLeadingIsDay | ccsv/detect_type.py:110 | every day 1 to 31 in two digits is accepted, and an accepted day whose second character is an ASCII digit is one of them |
| DateFormats.DaySparseIsDay | ccsv/detect_type.py:111 | every day 1 to 31 without a leading zero is accepted, and an accepted day of ASCII digits is one of them |
| PatternCatalog.NatToDecimal | ccsv/detect_type.py:130 | `"%i" % n` is a non-empty run of digits |
| PatternCatalog.DecimalRoundTrip | ccsv/detect_type.py:130 | reading `"%i" % n` back gives `n` |
| PatternCatalog.DateKeyInjective | ccsv/detect_type.py:130 | distinct counters give distinct keys `date_<i>` |
| PatternCatalog.DatePatternsEntries | ccsv/detect_type.py:129-131 | after `n` stores, key `date_<i>` for `i < n` holds the date pattern numbered `i` |
| PatternCatalog.DatePatternsKeys | ccsv/detect_type.py:129-131 | after `n` stores, every key of the date entries is `date_<i>` for some `i < n` |
| PatternCatalog.BaseNamesAreNotDates | ccsv/detect_type.py:71-89 | no fixed pattern name starts with `date_` |
| PatternCatalog.CatalogDateNames | ccsv/detect_type.py:129-131 | a key of the finished table starts with `date_` exactly when it is `date_<i>` for some `i` below 48 |
| PatternCatalog.CatalogDateEntry | ccsv/detect_type.py:129-131 | the finished table holds date pattern `i` under `date_<i>` |
| PatternCatalog.CatalogBaseEntry | ccsv/detect_type.py:94-131 | adding the date patterns leaves every fixed entry in place |
| PatternCatalog.CatalogIsCatalog | ccsv/detect_type.py:93-146 | the table built from PATTERNS and the date loops satisfies the table invariant |
| PatternCatalog.BaseEntries | ccsv/detect_type.py:71-89 | a table satisfying the invariant holds each named pattern under its name |
| CellTypes.DetectIsFirstHolding | ccsv/detect_type.py:155-171 | each label is returned exactly when its test holds and every earlier test fails; no label is returned exactly when every test fails |
| CellTypes.KnownIffSomeTestHolds | ccsv/detect_type.py:152-153 | a cell has a known type exactly when at least one of the ten tests holds |
| CellTypes.EmptyIffBlank | ccsv/detect_type.py:214-217 | is_empty holds exactly for cells of spaces only when stripping, and for the empty cell only otherwise |
| CellTypes.NumberCellChars | ccsv/detect_type.py:180-189 | a number cell holds only number characters and spaces, and it starts with whitespace only if that is a space and stripping is on |
| CellTypes.NumberIsNotDate | ccsv/detect_type.py:197-199 | a number is never a date |
| CellTypes.NumberIsLabelledNumber | ccsv/detect_type.py:155-171 | every number is labelled number: it is neither empty nor a URL or e-mail |
| CellTypes.NumberIsNotUrlOrEmail | ccsv/detect_type.py:191-192 | a number is not empty and is not a URL or e-mail |
| CellTypes.PercentageIff | ccsv/detect_type.py:219-222 | a cell is a percentage exactly when, once stripped, it is a number followed by one or more `%` |
| CellTypes.NumberBeforePercents | ccsv/detect_type.py:222 | `rstrip("%")` of a number followed by percent signs gives back the number |
| CellTypes.NumberWithPercents | ccsv/detect_type.py:219-222 | any number followed by one or more `%` is a percentage, with stripping on or off |
| CellTypes.CurrencyIff | ccsv/detect_type.py:224-234 | a cell is currency exactly when, once stripped, it is a currency symbol, then optionally one whitespace character, then a number |
| CellTypes.WhitespaceThenNumber | ccsv/detect_type.py:87 | a number that starts with whitespace stays a number without it, so the optional `\s?` of the currency pattern never decides between a number and a non-number |
| CellTypes.NoNewlineInNumber | ccsv/detect_type.py:180-189 | no number holds a newline, so the `.` of the currency group matches every character of the remainder |
| CellTypes.SpaceThenNumber | ccsv/detect_type.py:224-234 | with stripping on, a number preceded by a space is still a number once the space is dropped |
| CellTypes.NanSpellings | ccsv/detect_type.py:280-286 | is_nan holds exactly for the stripped spellings `n/a`, `N/a`, `n/A` and `N/A` |
| CellTypes.MarkedFormat | ccsv/detect_type.py:122-127 | the Chinese and Korean date patterns alternate fields and marks |
| CellTypes.MarkedDateIsAlphanum | ccsv/detect_type.py:122-127 | every text a Chinese or Korean date pattern accepts is alphanumeric |
| CellTypes.MarkedDateIsNotLabelledDate | ccsv/detect_type.py:155-171 | a cell that matches a Chinese or Korean date pattern is never labelled date, because the alphanumeric test comes first |
| CellTypes.AlphanumIsNotLabelledDate | ccsv/detect_type.py:155-171 | no alphanumeric cell is labelled date |
| CellTypes.CompactDateIsDigits | ccsv/detect_type.py:133-146 | a match of a compact pattern (other than the leftover Chinese one) is all digits |
| CellTypes.CompactFormatIsFields | ccsv/detect_type.py:133-146 | the compact patterns other than the leftover Chinese one are three fields without separators |
| CellTypes.CompactDateIsNumber | ccsv/detect_type.py:133-146 | a compact date whose first character is an ASCII digit 1 to 9 is labelled number, as the comment on the compact loop says |
| CellTypes.DatetimeWithSpace | ccsv/detect_type.py:238-242 | a cell `d + " " + t` is a date-time exactly when `d` is a date and `t` a time |
| CellTypes.DatetimeNotTwoSpaces | ccsv/detect_type.py:238-241 | a cell with two or more spaces after a space-free first part is not a date-time |
| CellTypes.DatetimeWithT | ccsv/detect_type.py:243-278 | a cell `d + "T" + t` is a date-time exactly when `d` is a date and `t` is a time, or `t` passes the `+` offset check, or (only without a `+`) the `-` offset check |
| CellTypes.DatetimeNotTwoTs | ccsv/detect_type.py:244-246 | a space-free cell with two or more `T` is not a date-time |
| CellTypes.OffsetTimePieces | ccsv/detect_type.py:254-265 | the offset check looks at the first two pieces only: the first must be a time and the second a time or an `HHMM` offset |
| Detector.AddDatePattern | ccsv/detect_type.py:129-131 | storing pattern `n` under `date_<n>` turns the table after `n` stores into the table after `n + 1` |
| Detector.TypeDetector.constructor | ccsv/detect_type.py:93-98 | the new detector keeps the strip setting and its table satisfies the table invariant |
| Detector.TypeDetector.InitDatePatterns | ccsv/detect_type.py:100-146 | the nested loops with their counter add exactly the 48 numbered date patterns to the table |
| Detector.TypeDetector.StoreDatePatterns | ccsv/detect_type.py:129-131 | storing a group of patterns advances the counter by the group's size and adds those keys |
| Detector.TypeDetector.RunRegex | ccsv/detect_type.py:173-178 | `_run_regex` is the full match of the named pattern against the cell, stripped when the detector strips |
| Detector.TypeDetector.IsNumber | ccsv/detect_type.py:180-189 | computes `CellTypes.IsNumber` |
| Detector.TypeDetector.IsUrlOrEmail | ccsv/detect_type.py:191-192 | computes `CellTypes.IsUrlOrEmail` |
| Detector.TypeDetector.IsUnicodeAlphanum | ccsv/detect_type.py:194-195 | computes `CellTypes.IsUnicodeAlphanum` |
| Detector.TypeDetector.IsDate | ccsv/detect_type.py:197-205 | computes `CellTypes.IsDate`: false for numbers, otherwise whether some date pattern matches |
| Detector.TypeDetector.MatchesDatePattern | ccsv/detect_type.py:200-205 | the loop over the table's keys, with its early return, finds a match exactly when some `date_` entry matches |
| Detector.TypeDetector.IsTime | ccsv/detect_type.py:207-212 | computes `CellTypes.IsTime` |
| Detector.TypeDetector.IsEmpty | ccsv/detect_type.py:214-217 | computes `CellTypes.IsEmpty` |
| Detector.TypeDetector.IsPercentage | ccsv/detect_type.py:219-222 | computes `CellTypes.IsPercentage` |
| Detector.TypeDetector.IsCurrency | ccsv/detect_type.py:224-234 | computes `CellTypes.IsCurrency` |
| Detector.TypeDetector.OffsetTime | ccsv/detect_type.py:254-277 | computes `CellTypes.OffsetTime` |
| Detector.TypeDetector.IsDatetime | ccsv/detect_type.py:236-278 | computes `CellTypes.IsDatetime` |
| Detector.TypeDetector.IsNan | ccsv/detect_type.py:280-286 | computes `CellTypes.IsNan` |
| Detector.TypeDetector.RunTest | ccsv/detect_type.py:168-169 | runs the test named by a label |
| Detector.TypeDetector.DetectType | ccsv/detect_type.py:155-171 | the loop over the tests, with its early return, computes `CellTypes.Detect` |
| Detector.TypeDetector.IsKnownType | ccsv/detect_type.py:152-153 | computes `CellTypes.IsKnown` |
| Detector.NoDateMatchAdd | ccsv/detect_type.py:200-204 | a key that is not a matching `date_` entry keeps the loop's "no match so far" invariant |
| Detector.DateEntriesAreFormats | ccsv/detect_type.py:200-205 | in a table satisfying the invariant, some `date_` entry matches exactly when one of the 48 date patterns does |
| Scoring.GenKnownType | ccsv/detect_type.py:289-296 | yields, cell by cell, whether a stripping detector knows the cell's type |
| Scoring.TypeScore | ccsv/detect_type.py:299-325 | the nested loops compute `Score`: `eps` for a table without cells, otherwise the larger of `eps` and the share of known cells |
| Scoring.FlagsAt | ccsv/detect_type.py:294-296 | entry `i` of the generated flags is the answer for cell `i` |
| Scoring.CountTrueBounds | ccsv/detect_type.py:317-320 | at most every cell is counted; all are counted exactly when every flag is set, none exactly when none is |
| Scoring.PassAtMostCells | ccsv/detect_type.py:315-320 | `known` never exceeds `total` |
| Scoring.DefaultScoreBounds | ccsv/detect_type.py:299 | with the default `eps` of 1e-10 (`DEFAULT_EPS_TYPE`), every table scores between 1e-10 and 1 |
| Scoring.RowExtremes | ccsv/detect_type.py:317-320 | in a row where every cell passes, every cell is counted; in a row where none passes, none is |
| Scoring.RatioBounds | ccsv/detect_type.py:321-325 | the score is at least `eps`, and at most 1 when `eps` is |
| Scoring.AllPassCount | ccsv/detect_type.py:315-320 | when every cell passes, `known == total` |
| Scoring.NonePassCount | ccsv/detect_type.py:315-320 | when no cell passes, `known == 0` |
| Scoring.AllPassRatio | ccsv/detect_type.py:321-325 | a non-empty table whose cells all pass scores the larger of `eps` and 1 |
| Scoring.NonePassRatio | ccsv/detect_type.py:321-325 | a non-empty table none of whose cells pass scores the larger of `eps` and 0 |
| Scoring.EmptyCellsScoreOne | ccsv/detect_type.py:321-325 | empty cells are of a known type, so a non-empty table of empty cells scores 1 when `eps` is at most 1 |
| Examples.PlainNumbers | ccsv/detect_type.py:72 | `0`, `-12`, `3.14`, `3,14` and `1e10` are numbers |
| Examples.GroupedNumbers | ccsv/detect_type.py:73-74 | `1,234.56` and `1.234,56` are numbers |
| Examples.NotNumbers | ccsv/detect_type.py:72 | `01` is not a number (leading zero), and neither is the empty cell |
| Examples.LoneMarks | ccsv/detect_type.py:72 | a lone `+`, `-` or `.` is a number; a lone `,` is not, but `,5` is |
| Examples.NotGrouped | ccsv/detect_type.py:73-74 | a text of four or more characters that starts without a sign and has no group separator among its second to fourth characters is not a grouped number (number_2 with `,` groups, number_3 with `.` groups) |
| Examples.DigitsNotAlphanum | ccsv/detect_type.py:77-81 | a text of ASCII digits only is not alphanumeric: both alternatives need a letter |
| Examples.NoDateFormat | ccsv/detect_type.py:104-146 | a text that is empty or does not start with a decimal digit matches none of the 48 date patterns |
| Examples.YearFirstIsNumber | ccsv/detect_type.py:133-146 | `19990101` matches the compact pattern `date_44` but is labelled number |
| Examples.DayFirstIsDate | ccsv/detect_type.py:197-205 | `01011999` is not a number, matches `date_45` and is labelled date |
| Examples.Times | ccsv/detect_type.py:82-86 | `23:59:59` and `9:05` are times; `24:00:00` is not |
| Examples.Percentages | ccsv/detect_type.py:219-222 | `45.5%%` is a percentage; `%` is not |
| Examples.Currencies | ccsv/detect_type.py:224-234 | `$12.50` and `$ 12.50` are currency; `$` alone is not |
| Examples.NotApplicableIsNan | ccsv/detect_type.py:280-286 | `N/A` is labelled nan, because `/` is not an allowed special |
| Examples.NanWordIsAlphanum | ccsv/detect_type.py:283 | `nan` is labelled alphanumeric, not nan |
| Examples.SingleLetterIsUnknown | ccsv/detect_type.py:155-171 | a single letter has no type |
| Examples.CompactStampIsAlphanum | ccsv/detect_type.py:155-171 | `20230101T1230` is labelled alphanumeric: every earlier test fails and the alphanumeric test holds |

## Left out

- Unicode categories. `\d`, `\p{N}`, `\p{L}`, `\p{Sc}`, `\s` and `\w` are tables of selected ranges: ASCII plus a set of common blocks. They are not the full Unicode database, so cells with characters outside those ranges may be classified differently.
- The `regex` engine itself. Each pattern is a predicate for its full-match language. Backtracking, compilation and `_compile_regexes` are not modelled; a table entry holds the pattern already compiled.
- `unix_path` is a pattern no test uses, so the table leaves it out.
- `parse_data` is outside this model. `type_score` receives the rows already parsed, and the dialect plays no other part.
- Floating point. `known / total` and `max(eps, …)` are exact rationals (`real`), and `DEFAULT_EPS_TYPE` is the exact value 1e-10.
- `gen_known_type` produces a sequence, not a lazy generator.
- `self.patterns = PATTERNS` shares the module-level dictionary between detectors. The model gives each detector its own table, which is what each detector ends up holding anyway.
- `str.lower` is modelled on ASCII letters only. `is_nan` compares with `n/a`, so no other character could produce a match.
- `is_date` loops over the dictionary in insertion order. The model picks keys in any order; its result does not depend on the order.
- PatternCatalog.IsCatalog: it states the fixed entries, the 48 date entries and that no other key starts with `date_`. It does not forbid other keys, which none of the tests look up.
- Detector.TypeDetector.constructor: the source's `_init_date_patterns` also writes the date patterns into the shared `PATTERNS` dictionary. That write is not visible in this model.
