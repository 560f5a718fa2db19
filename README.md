# pulsarviewer: sexagesimal coordinates and PRESTO `.bestprof` files

A Dafny model of the two self-contained components of pulsarviewer, with their properties
proved.

- **`fold/coords.py`** holds the angle value types.
  - `RightAscension` has hour, minute and second fields.
  - `Declination` has sign, degree, minute and second fields.
  - `OnSkyCoordinate` pairs the two.
  - Each type has a range check (`ra_ok`, `dec_ok`) applied by its constructor, a parser
    for `H:MM:SS.ffff` text, a fixed-width formatter with a rounding workaround for the
    seconds, exact conversions to and from radians, and a `__cmp__` by total seconds.
  - The model is pure: datatypes, functions and lemmas (`coords.dfy`, module `Coords`).
  - `coords_text.dfy` (module `CoordsText`) proves what the formatters' text reads back as.
- **`fold/bestprof.py`** reads the output of PRESTO's `prepfold`.
  - Two value decoders: `float_with_error` and `prob_parser`.
  - `KEY_VALUE_MAPPING`, the table from header keys to attribute names and converters.
  - `BestprofFile.parse`, a two-mode line machine. In header mode it reads `#` lines by
    fixed columns until the `#################` key. After that it reads `bin value` lines.
    It ends with a check that the bins are consecutive and a check of the bin count
    against the header.
- `bestprof.dfy` (module `Bestprof`) models the decoders as functions. `BestprofFile` is a
  class. Its `Parse` runs the source's two loops as imperative loops. Each loop is proved
  equal to a functional specification (`Step`, `Scan`, `Finish`, `ParseSpec`), and the
  lemmas state the parser's promises about that specification.
- `text.dfy` (module `Text`) models the Python string operations the two files use:
  - `str.strip`, `str.split(sep)` and `str.split()`;
  - `'%02d'`;
  - slicing;
  - digit runs.
- `wrappers.dfy` holds `Option` and `Result`. Raised exceptions are `Err` values.

Reals are exact. `math.pi` is the real 3.141592653589793, `int()` of a float truncates
toward zero, and `'%07.4f'` rounds exactly, half to even. Python's `float()` and `int()` on
the tokens of a `.bestprof` file are a parameter (`Numeric`) mapping text to a value or to
failure. Everything proved about the parser holds for every such pair of functions. A file
is its sequence of lines, each with its newline.

## Model

| member | source | states |
|---|---|---|
| Coords.DecOk | fold/coords.py:30-46 | holds exactly when the sign is -1 or 1 and either the degree is 90 with zero minute and second, or the degree is strictly between -90 and 90 with minute 0..59 and second in [0, 60) |
| Coords.RaOk | fold/coords.py:48-58 | holds exactly when 0 <= hour <= 23, 0 <= minute <= 59 and 0 <= second < 60 |
| Coords.NewDeclination | fold/coords.py:94-107 | raises ValueError exactly when `dec_ok` fails; otherwise stores the four fields unchanged |
| Coords.NewRightAscension | fold/coords.py:236-247 | raises ValueError exactly when `ra_ok` fails; otherwise stores the three fields unchanged |
| Coords.Trunc | fold/coords.py:167-171 | `int()` of a float truncates toward zero: n <= x < n + 1 for x >= 0, and n - 1 < x <= n otherwise |
| Coords.RaToRadians | fold/coords.py:318-322 | a valid right ascension converts to radians in [0, 2*pi) |
| Coords.DecRadiansRange | fold/coords.py:209-215 | a valid declination converts to radians in [-pi/2, pi/2], and lands on an end exactly when its degree is 90 |
| Coords.RaFromRadians | fold/coords.py:270-287 | fails only with ValueError or with RightAscensionRangeError carrying the input |
| Coords.RaFromRadiansDomain | fold/coords.py:276-287 | succeeds exactly on (1e-5, 2*pi); raises the range error exactly outside the guard (1e-5, 2*pi + 1e-5); raises ValueError (hour 24) exactly on [2*pi, 2*pi + 1e-5) |
| Coords.RaFromRadiansInverse | fold/coords.py:279-287 | whatever `from_radians` builds converts back to the radians it came from |
| Coords.RaRadiansRoundTrip | fold/coords.py:270-322 | `from_radians(x.to_radians())` gives back every valid right ascension whose radians exceed 1e-5 |
| Coords.RaZeroNotRebuilt | fold/coords.py:276-277 | 00:00:00 converts to 0 radians, which `from_radians` rejects with a range error |
| Coords.DecFromRadians | fold/coords.py:154-175 | fails only with ValueError; the sign is +1 exactly when the radians are >= 0 |
| Coords.DecFromRadiansDomain | fold/coords.py:160-175 | there is no guard of its own, and the conversion succeeds exactly on [-pi/2, pi/2] |
| Coords.DecFromRadiansInverse | fold/coords.py:160-175 | whatever `from_radians` builds converts back to the radians it came from |
| Coords.DecRadiansRoundTrip | fold/coords.py:154-215 | `from_radians(x.to_radians())` gives back every valid declination with a non-negative degree field, except that a zero angle comes back with sign +1 |
| Coords.DecRadiansMagnitude | fold/coords.py:209-215 | the size of a declination's radians is pi times its size in half-turns, and the radians are negative exactly for a non-zero angle with sign -1 |
| Coords.DecDigitsOfMagnitude | fold/coords.py:167-173 | the digit extraction of `from_radians`, applied to the size of a declination in radians, gives back its degree, minute and second |
| Coords.RaCompare | fold/coords.py:330-336 | raises TypeError exactly when the operand is not a right ascension; otherwise the result is negative (zero) exactly when the first angle's radians are smaller than (equal to) the second's |
| Coords.RaCompareAntisymmetric | fold/coords.py:330-334 | cmp(a, a) == 0 and cmp(a, b) == -cmp(b, a) |
| Coords.DecCompare | fold/coords.py:223-229 | raises TypeError exactly when the operand is not a declination |
| Coords.DecCompareAntisymmetric | fold/coords.py:223-227 | cmp(a, a) == 0 and cmp(a, b) == -cmp(b, a) |
| Coords.DecCompareSecondsUnsigned | fold/coords.py:225-227 | as written, -10:00:30 compares 30 above -10:00:00, although it lies further south |
| Coords.DecCompareSigned | fold/coords.py:223-229 | the corrected comparison raises TypeError exactly when the operand is not a declination |
| Coords.DecCompareSignedOrder | fold/coords.py:223-227 | on valid declinations, the sign of the corrected comparison agrees with the order of their radians, equality included |
| Coords.SignedRadians | fold/coords.py:213 | a declination's radians are pi/648000 times its signed size in arc-seconds |
| Coords.DecToRadians | fold/coords.py:209-215 | no contract of its own; its range is Coords.DecRadiansRange, its value Coords.SignedRadians, and its inverse Coords.DecFromRadiansInverse and Coords.DecRadiansRoundTrip |
| Coords.DigitsThen | fold/coords.py:89 | a match of `\d{1,2}` followed by a literal is one or two digits that end right at that literal |
| Coords.DigitsGreedy | fold/coords.py:90 | a match of `\d{1,2}` at the end of a pattern is one or two digits |
| Coords.SecondsGroup | fold/coords.py:89 | the seconds group matched is one or two digits, then optionally a point and any number of digits |
| Coords.MatchLong | fold/coords.py:89 | a match of the long pattern has well-formed degree/hour, minute and seconds groups |
| Coords.MatchShort | fold/coords.py:90 | a match of the short pattern has well-formed degree/hour and minute groups and no seconds |
| Coords.DecFromSexagesimal | fold/coords.py:109-152 | a result is a valid declination with non-negative degree and minute; the sign is -1 exactly when the text starts with `-`; the seconds are 0 when only DEC2 matches; DeclinationParseError exactly when neither pattern matches after the optional sign, otherwise only ValueError |
| Coords.RaFromSexagesimal | fold/coords.py:249-268 | a result is a valid right ascension; the seconds are 0 when only RA2 matches; RightAscensionParseError exactly when neither pattern matches at the start, otherwise only ValueError |
| Coords.RaHour24Rejected | fold/coords.py:255-268 | `24:00` matches RA2, but the constructor rejects it with ValueError |
| Coords.RoundHalfEven | fold/coords.py:196 | the rounded integer lies within 0.5 of its argument |
| Coords.SecondsTicks | fold/coords.py:196 | seconds in [0, 60) round to between 0 and 600000 ten-thousandths |
| Coords.FormatTicks | fold/coords.py:196 | `'%07.4f'` is at least seven characters wide |
| Coords.FormatSeconds | fold/coords.py:196 | `'%07.4f'` of non-negative seconds is at least seven characters wide |
| Coords.FormatTicksShape | fold/coords.py:196-199 | the seconds text is two digits, a point and four digits that spell the ten-thousandths; it starts with `6` exactly when it reads 60.0000; replacing that `6` by `0` gives the text of 00.0000 |
| Coords.FormatTicksLead | fold/coords.py:198 | the seconds text starts with `6` exactly when the seconds round to 60.0000 |
| Coords.DecimalsShape | fold/coords.py:196 | the four decimals are digits that spell the ten-thousandths below a whole second |
| Coords.FormatTicksCarry | fold/coords.py:199 | replacing the leading `6` of a 60.xxxx text by `0` gives the text of the same seconds a minute less |
| Coords.SecondsCarry | fold/coords.py:198 | the leading-`6` test holds exactly when the seconds round to 60.0000 |
| Coords.SecondsText | fold/coords.py:196-199 | the seconds text the formatters print is the rounded seconds, with 00.0000 in place of 60.0000 |
| Coords.DecToSexagesimal | fold/coords.py:177-207 | the text is at least 14 characters and starts with `+` or `-` as the sign is 1 or -1; exactly 14 for a non-negative degree; what it reads back as is CoordsText.DecTextRoundTrip |
| Coords.DecToSexagesimalCarried | fold/coords.py:177-207 | corrected formatter: the same width and leading sign; what it reads back as is CoordsText.DecTextRoundTripCarried |
| Coords.RaToSexagesimalCarried | fold/coords.py:289-316 | corrected formatter: the text is exactly 13 characters; what it reads back as is CoordsText.RaTextRoundTripCarried |
| Coords.FieldWidths | fold/coords.py:194-196 | `'%07.4f'` of seconds in [0, 60) with the carry workaround is 7 characters; `'%02d'` of 0..99 is 2; of any other number at least 2 |
| Coords.DecFields | fold/coords.py:194-205 | as written, degree and minute print unchanged unless the seconds carry at minute 59; then the degree goes up by one and the minute prints as 00 |
| Coords.DecFieldsCarried | fold/coords.py:194-205 | corrected: a carry always adds a minute, and minute 60 overflows into the degree |
| Coords.RaToSexagesimal | fold/coords.py:289-316 | raises UnboundLocalError exactly when the seconds round to 60.0000; otherwise gives `%02d:%02d:%07.4f` of hour, minute and seconds |
| Coords.RaFieldsCarried | fold/coords.py:299-314 | corrected: a carry adds a minute, minute 60 overflows into the hour, and hour 24 wraps to 0 |
| Coords.SkyFromSexagesimal | fold/coords.py:346-354 | succeeds exactly when both components parse, and holds their results; the right ascension's error comes first |
| Coords.SkyToSexagesimal | fold/coords.py:356-360 | the pair of the two components' texts; raises exactly when the right ascension's seconds round to 60.0000 |
| Coords.SkyFromRadians | fold/coords.py:362-370 | succeeds exactly when both components convert, and the result is a valid coordinate |
| Coords.SkyToRadians | fold/coords.py:372-376 | the right ascension of a valid coordinate converts to [0, 2*pi) |
| Coords.SkyRadiansRoundTrip | fold/coords.py:362-376 | a valid coordinate converts to radians and back unchanged, under the conditions of the two component round trips |
| Coords.SkyFromRadiansInverse | fold/coords.py:362-376 | whatever `from_radians` builds converts back to the radians it came from |
| CoordsText.MatchLongAt | fold/coords.py:89 | a text with the shape DD:DD:DD.d* at a position matches the long pattern there, with exactly those groups |
| CoordsText.TicksValue | fold/coords.py:133 | `float()` of the printed seconds is the rounded seconds |
| CoordsText.ReadBack | fold/coords.py:117-133 | text laid out as sign, two-digit fields and seconds matches DEC1/RA1 right after the sign, with exactly the printed fields as its groups |
| CoordsText.GroupValues | fold/coords.py:127-133 | `int()` of the printed two-digit fields gives the fields back, and `float()` of the printed seconds gives the rounded seconds |
| CoordsText.ReadDec | fold/coords.py:109-152 | signed laid-out text parses as the declination it spells |
| CoordsText.ReadRa | fold/coords.py:249-268 | unsigned laid-out text parses as the right ascension it spells |
| CoordsText.DecParseLong | fold/coords.py:109-133 | any text of sign (empty, `+` or `-`), one or two digits, `:`, one or two digits, `:`, one or two digits, `.` and any digits, then text not starting with a digit, parses as the constructor applied to the sign and the values of the groups |
| CoordsText.DecParseWhole | fold/coords.py:109-133 | the same with whole seconds of one or two digits followed by text that is neither a digit nor a point |
| CoordsText.DecParseShort | fold/coords.py:109-152 | sign and two fields with no `:digit` after them parse through DEC2 as the constructor applied to the sign, the two values and zero seconds |
| CoordsText.RaParseLong | fold/coords.py:249-268 | unsigned text of the long shape parses as the constructor applied to the values of the groups |
| CoordsText.RaParseWhole | fold/coords.py:249-268 | the same with whole seconds |
| CoordsText.RaParseShort | fold/coords.py:249-268 | two fields with no `:digit` after them parse through RA2 with zero seconds |
| CoordsText.SelfTestRa | fold/coords.py:481-484 | `00:48:33.9` parses as RightAscension(0, 48, 33.9) |
| CoordsText.SelfTestDec | fold/coords.py:481-484 | `+34:12:08.0` parses as Declination(1, 34, 12, 8.0) |
| CoordsText.UnpaddedDec | fold/coords.py:109-133 | `5:3:7.25` (no sign, single digits) parses as Declination(1, 5, 3, 7.25) |
| CoordsText.ShortRa | fold/coords.py:255-268 | `12:34` matches RA2 only, and parses as RightAscension(12, 34, 0.0) |
| CoordsText.OutOfRangeDec | fold/coords.py:109-152 | `-95:00` matches DEC2, and the constructor rejects it with ValueError |
| CoordsText.DecNegativeDegreeUnread | fold/coords.py:30-46 | a declination that `dec_ok` accepts with a negative degree prints a second minus after its sign, and its text (whatever follows) fails to parse with DeclinationParseError; the one exception is degree -1 at minute 59 with a carry |
| CoordsText.NegativeDegreeUnread | fold/coords.py:194 | Declination(1, -5, 0, 0.0) is valid, its text starts `+-`, and it does not parse |
| CoordsText.DecTextRoundTrip | fold/coords.py:177-207 | for a non-negative degree field only: when the seconds do not round to 60.0000, parsing `to_sexagesimal` output (plus any trailing text that does not start with a digit) gives the same sign, degree and minute, with the seconds rounded to four decimals |
| CoordsText.RaTextRoundTrip | fold/coords.py:289-316 | when the seconds do not round to 60.0000, formatting succeeds, and parsing its text gives the same hour and minute, with the seconds rounded to four decimals |
| CoordsText.DecCarryKeepsMinute | fold/coords.py:198-205 | as written, when the seconds round to 60.0000 below minute 59, the text reads back with the same minute and zero seconds: a minute short |
| CoordsText.DecCarryRollsOver | fold/coords.py:200-205 | as written, a carry at minute 59 reads back as the next degree, minute 0 |
| CoordsText.DecCarryAsWritten | fold/coords.py:198-205 | both carry cases of the declination formatter as written |
| CoordsText.DecCarryLosesMinute | fold/coords.py:198-205 | +10:20:59.99999 is printed as +10:20:00.0000 and reads back a minute short |
| CoordsText.RaCarryRaises | fold/coords.py:305-307 | formatting 01:02:59.99999 raises UnboundLocalError |
| CoordsText.DecCarryTotal | fold/coords.py:198-205 | one minute on from a carried declination is still valid and has the rounded size |
| CoordsText.DecPlainTotal | fold/coords.py:30-46 | a declination with a non-negative degree whose seconds do not round up stays valid with its seconds rounded, and keeps its rounded size |
| CoordsText.DecCarriedReadPlain | fold/coords.py:194-207 | corrected formatter without a carry: reads back with the same sign and the rounded size |
| CoordsText.DecCarriedReadMinute | fold/coords.py:198-205 | corrected formatter, carry below minute 59: reads back with the same sign and the rounded size |
| CoordsText.DecCarriedReadDegree | fold/coords.py:198-205 | corrected formatter, carry at minute 59: reads back with the same sign and the rounded size |
| CoordsText.DecTextRoundTripCarried | fold/coords.py:177-207 | with the carry done in full, every valid declination with a non-negative degree prints as text that reads back as a valid declination with the same sign, whose size is the original's with the seconds rounded to four decimals |
| CoordsText.RaCarryTotal | fold/coords.py:305-313 | one minute on from a carried right ascension is still valid and has the rounded total, less a day at 24h |
| CoordsText.RaPlainTotal | fold/coords.py:299-302 | the fields and the rounded seconds add up to the rounded total |
| CoordsText.RaCarriedReadPlain | fold/coords.py:299-316 | corrected formatter without a carry: reads back with the rounded total |
| CoordsText.RaCarriedReadMinute | fold/coords.py:305-307 | corrected formatter, carry below minute 59: reads back with the rounded total |
| CoordsText.RaCarriedReadHour | fold/coords.py:308-311 | corrected formatter, carry at minute 59 before 23h: reads back with the rounded total |
| CoordsText.RaCarriedReadMidnight | fold/coords.py:312-314 | corrected formatter, carry at 23:59: wraps to midnight, the rounded total less a day |
| CoordsText.RaTextRoundTripCarried | fold/coords.py:289-316 | with the carry done in full, every valid right ascension prints as text that reads back as a valid right ascension whose total is the original's with the seconds rounded, less a day when that reaches 24h |
| Bestprof.FloatWithError | fold/bestprof.py:10-14 | `N/A` gives (None, None); every failure is ValueError |
| Bestprof.FloatWithErrorParts | fold/bestprof.py:13-14 | any other chunk that decodes is exactly two float texts around one `+/-`, and decodes to their two values |
| Bestprof.FloatWithErrorOfParts | fold/bestprof.py:13-14 | two float texts without `+/-`, joined by one `+/-`, decode to their two values |
| Bestprof.SplitAround | fold/bestprof.py:13 | splitting `a + "+/-" + b` on `+/-` gives [a, b] when neither part holds the separator |
| Bestprof.SigmaMatch | fold/bestprof.py:16 | a match's sigma group is a non-empty run of non-whitespace |
| Bestprof.SigmaMatchOf | fold/bestprof.py:16 | `~<group><spaces>sigma)<rest>` matches with that group |
| Bestprof.SigmaMatchParts | fold/bestprof.py:16 | every match has exactly that shape |
| Bestprof.ProbParser | fold/bestprof.py:18-31 | `N/A` gives a bare None; every other success is a (value, sigma) pair |
| Bestprof.ProbParserPlain | fold/bestprof.py:21-26 | a chunk without `(` gives (float(chunk), None), or ValueError when it is no float |
| Bestprof.ProbParserOfParts | fold/bestprof.py:23-30 | `<value>(~<sigma> sigma)` gives (value, sigma), e.g. `0.001(~3.2 sigma)` gives (0.001, 3.2) |
| Bestprof.ProbParserOneParen | fold/bestprof.py:21-31 | a chunk with exactly one `(` raises ValueError when the part before it is no float, AttributeError when the part after it does not match the sigma pattern, and ValueError when the sigma group is no float |
| Bestprof.ProbParserSigmaParts | fold/bestprof.py:23-30 | a chunk that decodes to a pair with a sigma is exactly a float text, `(~`, the sigma's text, spaces and `sigma)` |
| Bestprof.ProbParserSeveral | fold/bestprof.py:21-26 | a chunk with two or more `(` does not split into two parts, so it is read whole: `(float(chunk), None)`, or ValueError when that conversion fails (Python's `float` rejects every text holding `(`) |
| Bestprof.SplitAroundOne | fold/bestprof.py:23 | splitting on `(` a text with exactly one `(` gives the parts before and after it |
| Bestprof.ProfileBinsKey | fold/bestprof.py:34-64 | only the `Profile Bins` key of `KEY_VALUE_MAPPING` (the constant `KeyValueMapping`) maps to `profile_bins`, and it is read with `int` |
| Bestprof.HeaderActionOf | fold/bestprof.py:95-112 | no contract of its own; what each action does is Bestprof.ViewSets, Bestprof.SeparatorEndsHeader, Bestprof.UnknownKeyIgnored and Bestprof.KnownKeySets |
| Bestprof.Decode | fold/bestprof.py:34-64 | `str` always succeeds with the text; `float` and `int` succeed exactly when the token converts; `prob_parser` gives None or a pair with a value; `float_with_error` gives a pair; `N/A` gives None and (None, None) for those two |
| Bestprof.DataActionOf | fold/bestprof.py:115-127 | a profile line raises IndexError exactly when it has no words, or one word that is an int; it appends exactly when its first two words are an int and a float, and then appends those two |
| Bestprof.ViewSets | fold/bestprof.py:92-105 | read in the header, a line sets an attribute exactly when it starts with `#` and its key is not the separator and maps to that attribute, and it sets the converted value (None when the conversion fails) |
| Bestprof.Step | fold/bestprof.py:91-127 | one line: the only error is IndexError, exactly for an empty line in the header or a profile line that has no words or one int; outside a header line, mode and header are unchanged; a header line leaves the pairs alone; pairs only grow, by at most the line's (bin, value); header mode ends only at the separator |
| Bestprof.Finish | fold/bestprof.py:128-139 | succeeds exactly when the scan did, its bins are 0, 1, 2, ... in order, and `profile_bins` equals their number; the profile is the i-th pair's value at i; a scan error passes through; otherwise a failure is NonConsecutive when the bins are not 0, 1, 2, ..., else MissingProfileBins when no line set `profile_bins`, else BinCountDiscrepancy |
| Bestprof.ErrorSticks | fold/bestprof.py:115-127 | an IndexError is not caught: once raised, it is the result of the whole file |
| Bestprof.OkPrefix | fold/bestprof.py:91-127 | a scan that gets through all the lines got through every prefix of them |
| Bestprof.ProfileModeStays | fold/bestprof.py:92-97 | after the separator, the scan stays in profile mode and the header no longer changes |
| Bestprof.SeparatorEndsHeader | fold/bestprof.py:95-97 | in the header, the separator line switches to profile mode and changes nothing else |
| Bestprof.UnknownKeyIgnored | fold/bestprof.py:99-102 | in the header, a line with an unknown key changes nothing |
| Bestprof.ProfileLine | fold/bestprof.py:115-127 | a line not read as a header line appends its int and float, raises IndexError when empty or a lone int, and is otherwise skipped |
| Bestprof.KnownKeySets | fold/bestprof.py:103-112 | in the header, a line with a known key sets exactly its attribute and keeps every other attribute |
| Bestprof.StepKeepsField | fold/bestprof.py:92-127 | a line that does not set an attribute leaves it as it was |
| Bestprof.FieldKept | fold/bestprof.py:92-127 | lines that do not set an attribute leave it as it was |
| Bestprof.SetAt | fold/bestprof.py:103-105 | a line read in the header that sets an attribute gives it that line's value |
| Bestprof.SetUntil | fold/bestprof.py:92-127 | that value lasts through the following lines that do not set the same attribute |
| Bestprof.LastSetWins | fold/bestprof.py:103-112 | of several lines read in the header that set an attribute, the last gives its value; lines of the same shape after the separator do not count |
| Bestprof.PairsGrow | fold/bestprof.py:127 | pairs are only appended: those read from earlier lines stay at the front, in file order |
| Bestprof.FieldAbsent | fold/bestprof.py:99-112 | an attribute that no header line sets is absent from the header |
| Bestprof.ProfileBinsRequired | fold/bestprof.py:136-137 | a file in which no line sets `profile_bins` does not parse |
| Bestprof.ProfileBinsLineRequired | fold/bestprof.py:136-137 | a `.bestprof` file without a `Profile Bins` header line does not parse |
| Bestprof.LastHeaderLineWins | fold/bestprof.py:103-112 | in a file that parses, an attribute holds the converted value of the last line read in header mode that sets it (later lines of that shape after the separator are data lines), or None when that conversion fails |
| Bestprof.ScanStep | fold/bestprof.py:91-127 | the scan after a line is that line's step from the scan before it |
| Bestprof.Scan | fold/bestprof.py:84-127 | no contract of its own; the left fold of Bestprof.Step over the lines, tied to the loop by Bestprof.BestprofFile.ScanLines and Bestprof.ScanStep |
| Bestprof.ParseSpec | fold/bestprof.py:80-139 | no contract of its own; the functional specification of `parse`, which Bestprof.BestprofFile.Parse computes and the scan lemmas above describe |
| Bestprof.BestprofFile.constructor | fold/bestprof.py:74-78 | stores the header and profile, and `psr_name` is empty |
| Bestprof.BestprofFile.Parse | fold/bestprof.py:80-139 | returns exactly what the functional specification of `parse` gives for the lines, or raises the same exception |
| Bestprof.BestprofFile.ScanLines | fold/bestprof.py:84-127 | the first loop ends in the state, or with the error, that the left fold of the line steps gives |
| Bestprof.BestprofFile.ReadLineAt | fold/bestprof.py:91-127 | reading a line in the state the earlier lines left gives the scan of the lines up to and including it |
| Bestprof.BestprofFile.ReadLine | fold/bestprof.py:92-127 | one pass of the first loop computes exactly the specified step for the line |
| Bestprof.BestprofFile.CollectProfile | fold/bestprof.py:128-134 | succeeds exactly when the bins are 0, 1, 2, ... in order, and then returns the values in order; otherwise raises the non-consecutive error |
| Bestprof.BestprofFile.Open | fold/bestprof.py:70-78 | a new object holding the header and profile that `parse` returns, with an empty `psr_name`, or the exception `parse` raises |
| Bestprof.BestprofFile.SetPsrName | fold/bestprof.py:141-142 | replaces the pulsar name and leaves header and profile unchanged |
| Text.FormatInt | fold/coords.py:194-195 | `'%02d'` of a non-negative number is at least two digits that read back as the number; a negative one starts with `-` |
| Text.DigitsRoundTrip | fold/coords.py:131-132 | `int()` of the digits written for a number gives the number |
| Text.Slice | fold/bestprof.py:93 | `line[2:19]` is the slice when the bounds fit, and never longer than the line |
| Text.SliceFrom | fold/bestprof.py:94 | `line[20:]` is a suffix of the line, 20 characters shorter, or empty for a shorter line |
| Text.StripSpan | fold/bestprof.py:93-94 | `strip()` is a contiguous part of the text, removes only whitespace, and neither starts nor ends with whitespace |
| Text.WordsShape | fold/bestprof.py:116 | every word of `split()` is non-empty and free of whitespace |
| Text.Split | fold/bestprof.py:13 | `split(sep)` gives at least one part, and no part contains the separator |
| Text.SplitJoin | fold/bestprof.py:13 | joining the parts of `split(sep)` with the separator gives back the text |

## Left out

- Python's `float()` and `int()` literal grammar and binary floating point. Token conversion
  in `.bestprof` files is the `Numeric` parameter. Reals are exact, and `math.pi` is a fixed
  decimal. The round trips through radians hold in exact arithmetic, not in floats.
- `OnSkyCoordinate.to_vector`, `inner_product` and the two angular-distance functions
  (fold/coords.py:378-422): sine, cosine, square root and arc cosine.
- The `__main__` self-tests and plotting scripts of both files: printing, random inputs, SVG
  output.
- File opening, `os.path.abspath` and the stored `filename` (fold/bestprof.py:75, 90). A
  file is given as its sequence of lines.
- The `verbose` printing and tracebacks (fold/bestprof.py:100-101, 107-111, 117-119,
  124-125), and the constructors' diagnostic print (fold/coords.py:99).
- The `epoch` keyword argument of both constructors (fold/coords.py:107, 247). It is stored
  and never used.
- The text of the exception messages (fold/coords.py:61-87). Only the kind of error is kept.
  `DeclinationRangeError` is never raised.
- The `Header` attribute object is a map from attribute name to value. A missing attribute
  is a missing key, and reading it (`tmp_header.profile_bins`) is the MissingProfileBins
  error.
- The two "Exception" raises of `parse` carry no distinguishing type in the source. They
  are the NonConsecutive and BinCountDiscrepancy errors.
- CoordsText.DecTextRoundTrip and CoordsText.DecTextRoundTripCarried: only for a non-negative
  degree field. `dec_ok` also admits degrees -89..-1, whose text does not parse back
  (CoordsText.DecNegativeDegreeUnread); see Findings.
- Coords.RaCompare and Coords.DecCompare return the difference in seconds as a real. Python 2's
  `cmp()` converts a `__cmp__` result to an int, so a difference under a second in size
  compares as equal there; the model keeps the signed difference.
- Coords.DecRadiansRoundTrip and Coords.SkyRadiansRoundTrip: only for a non-negative degree
  field. A `Declination` built directly with a negative degree is valid for `dec_ok`, but
  `from_radians` never produces one.
- There is no single lemma for the full text round trip of `OnSkyCoordinate`. Its parser
  and formatter are tied to the component ones, whose round trips are proved.
- `RightAscension.from_radians(2*pi)` is not accepted. Its guard admits it, but it yields
  hour 24, which the constructor rejects. The model follows the code.
- The scan functions are generic over the key table. `Parse` and `Open` use
  `KEY_VALUE_MAPPING`.

## Findings

| source | as written | input that shows it | evidently intended | confidence | as-written member | corrected member |
|---|---|---|---|---|---|---|
| fold/coords.py:198-205 | `Declination.to_sexagesimal` computes `minute + 1` when the seconds round to 60.0000, but prints it only when it overflows to 60 | `Declination(1, 10, 20, 59.99999)` prints `+10:20:00.0000`, a minute short | the minute printed one higher, with the overflow going into the degree | not executed | CoordsText.DecCarryLosesMinute | CoordsText.DecTextRoundTripCarried |
| fold/coords.py:305-314 | `RightAscension.to_sexagesimal` runs `minute += 1` on a local that was never assigned, and would print the wrapped hour with `%07.4f` | `RightAscension(1, 2, 59.99999)` raises UnboundLocalError | carry into minute and hour, the hour wrapping at 24, printed as `%02d` | not executed | CoordsText.RaCarryRaises | CoordsText.RaTextRoundTripCarried |
| fold/coords.py:30-46 | `dec_ok` accepts a degree in -89..-1 beside the separate sign, and `to_sexagesimal` prints it with `'%02d'` | `Declination(1, -5, 0, 0.0)` prints `+-5:00:00.0000`, which `from_sexagesimal` rejects with DeclinationParseError | the degree is a magnitude, 0..90, with the sign carried by `sign` alone, as `from_sexagesimal` and `from_radians` produce it; text then reads back | not executed | CoordsText.DecNegativeDegreeUnread | CoordsText.DecTextRoundTripCarried |
| fold/coords.py:225-226 | `Declination.__cmp__` multiplies degrees and minutes by the sign but adds the seconds unsigned | -10:00:30 compares 30 above -10:00:00, which lies north of it | the sign applies to the whole angle, so comparison follows the radians | not executed | Coords.DecCompareSecondsUnsigned | Coords.DecCompareSignedOrder |
