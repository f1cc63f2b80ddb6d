# NMEA position sentences to decimal degrees

A verified Dafny model of the core of a small GNSS bridge that reads NMEA 0183
sentences from a u-blox ZED-F9P receiver and serves the latest position over
HTTP. The core has two parts, both in `code_2/code_2/app.py`:

- **`parse_nmea_lat_lon`**: converts the packed `ddmm.mmmm` latitude and
  `dddmm.mmmm` longitude fields into signed decimal degrees. The whole degrees
  are `int(raw / 100)`, truncated toward zero. The minutes are what remains.
  The result is `deg + min / 60`, negated for `"S"` or `"W"`. If either field
  is not a number, the result is `(None, None)`.
- **The sentence scan of `get_gnss_data_from_device`**: reads lines until the
  first `$GNGGA` or `$GNRMC` sentence that splits into more than nine comma
  fields. It picks the coordinate fields (2 to 5 for GGA, 3 to 6 for RMC),
  since RMC carries a status field first. It returns them with
  `clas_bytes = len(line)`. If the stream fails first, it returns
  `{latitude: None, longitude: None, clas_bytes: 0}`.

Files:

- `wrappers.dfy`: `Option`, which stands for Python's `None`.
- `numeric_text.dfy`: `float(s)` as a partial parser of decimal literals, and
  `int(x)` as truncation toward zero.
- `nmea_fields.dfy`: `str.split(",")` and its inverse `",".join`.
- `coordinate.dfy`: `parse_nmea_lat_lon` and the lemmas about it.
- `sentence_reader.dfy`: the `Fix` result, classification of one line, the
  first-match specification `FirstFix`, and the read loop `ReadFix`, proved
  equal to it.

Python floats become exact `real`s. The serial stream becomes a finite
`seq<string>` of decoded, stripped lines. The end of that sequence stands for
the exception path (`except Exception` at line 71), which leads to the
fallback result. A read timeout does not end the loop in the code. `readline`
then returns an empty line, which is skipped like any other non-matching
line. So a receiver that stays silent keeps the scan waiting, although the
`timeout=3` passed to the port at line 44 shows that a bounded read was
intended. The model follows the code: an empty line is
just another element of the sequence.

## Model

| member | source | states |
|---|---|---|
| NumericText.Trunc | code_2/code_2/app.py:15 | `int(x)` truncates toward zero: for x >= 0 the result t satisfies 0 <= t <= x < t + 1; for x < 0 it satisfies t - 1 < x <= t <= 0 |
| NumericText.NatRoundTrip | code_2/code_2/app.py:14 | rendering a natural number in decimal and reading it back with `float` gives the same number |
| NumericText.ParseDecimal | code_2/code_2/app.py:24 | a literal `whole.frac` of digits, either side possibly empty but not both (`.5`, `5.`), parses to the value of its whole part plus the value of its fraction |
| NumericText.ParseNegated | code_2/code_2/app.py:14 | a leading minus succeeds exactly when the unsigned text does, and negates the value |
| NumericText.ParsePlus | code_2/code_2/app.py:14 | a leading plus succeeds exactly when the unsigned text does, and leaves the value unchanged |
| NumericText.ParseFloat | code_2/code_2/app.py:14 | `float(field)`, with `None` for `ValueError`; text without a digit (the empty field, a lone sign or point, a letter) never parses |
| NumericText.FloatGrammar | code_2/code_2/app.py:24 | `float` succeeds exactly on the literals `[+-]? (digits [. digits?] \| . digits)`, and raises `ValueError` on every other text |
| NumericText.AcceptedExamples | code_2/code_2/app.py:14 | `".5"` and `"+7"` parse to 0.5 and 7 |
| NumericText.RejectedExamples | code_2/code_2/app.py:34-36 | `"1.2.3"`, `"12a"`, `"48-07"` and `"+-1"` take the `ValueError` path |
| NmeaFields.Split | code_2/code_2/app.py:53 | `line.split(",")`: always at least one field, even for the empty line |
| NmeaFields.SplitCount | code_2/code_2/app.py:53 | `split(",")` yields one more field than the line has commas, empty fields included |
| NmeaFields.SplitFieldsCommaFree | code_2/code_2/app.py:62 | no field produced by the split contains a comma |
| NmeaFields.JoinSplit | code_2/code_2/app.py:53 | joining the fields with commas restores the line |
| NmeaFields.SplitJoin | code_2/code_2/app.py:62 | splitting a join of comma-free fields gives exactly those fields back |
| Coordinate.Degrees | code_2/code_2/app.py:15 | `int(raw / 100)`: for a non-negative field, the whole degrees d with 100d <= raw < 100d + 100; for a negative field, the mirror image toward zero |
| Coordinate.Minutes | code_2/code_2/app.py:16 | `raw - deg * 100`: in [0, 100) for a non-negative field and in (-100, 0] for a negative one, never checked against 60 |
| Coordinate.DecimalDegrees | code_2/code_2/app.py:17 | `deg + min / 60`: within 100/60 of the whole degrees, above them for a non-negative field and below them for a negative one |
| Coordinate.ParseLatLon | code_2/code_2/app.py:11-36 | latitude and longitude are both present or both `None`, never one alone |
| Coordinate.AllOrNothing | code_2/code_2/app.py:34-36 | the result is `(None, None)` exactly when the latitude or the longitude field fails to parse; a failing latitude fails the call whatever the longitude field holds |
| Coordinate.Magnitudes | code_2/code_2/app.py:17 | on success each coordinate equals its field's decimal degrees up to sign, for both axes |
| Coordinate.DecompositionBounds | code_2/code_2/app.py:15-17 | for a non-negative field: degrees >= 0, 0 <= minutes < 100, degrees * 100 + minutes rebuilds the field, and the value lies in [deg, deg + 100/60) |
| Coordinate.PackedRoundTrip | code_2/code_2/app.py:25-27 | a field packed as `deg * 100 + min` with 0 <= min < 100 converts to exactly `deg + min / 60`, with degrees and minutes recovered |
| Coordinate.DecimalDegreesOdd | code_2/code_2/app.py:15-16 | because `int` truncates toward zero, a negative field converts to the negated value of its magnitude |
| Coordinate.DecimalDegreesPositive | code_2/code_2/app.py:17 | a non-negative field converts to a non-negative value, which is zero only for a zero field |
| Coordinate.MinutesNotRejected | code_2/code_2/app.py:16-17 | minutes of 60 or more are converted, not rejected: `4875` and `4915` both give 49.25 |
| Coordinate.LatitudeSign | code_2/code_2/app.py:20-21 | for any non-zero latitude field, negative fields included, the converted value is negated exactly when the indicator is the string `"S"`; `"N"`, `""`, `"s"` or anything else leaves it as it is, so a positive field gives a negative latitude exactly for `"S"` |
| Coordinate.LongitudeSign | code_2/code_2/app.py:30-31 | for any non-zero longitude field, the converted value is negated exactly when the indicator is the string `"W"`, so a positive field gives a negative longitude exactly for `"W"` |
| Coordinate.NonZeroField | code_2/code_2/app.py:15-17 | a non-zero field converts to a non-zero value of the same sign |
| Coordinate.IndicatorsIndependent | code_2/code_2/app.py:19-31 | the latitude does not depend on the longitude's indicator, and the longitude does not depend on the latitude's |
| Coordinate.AxesAlike | code_2/code_2/app.py:13-31 | both axes use the same conversion: swapping the two numeric fields, with indicators that negate alike, swaps the two results |
| Coordinate.ParseLatitudeField | code_2/code_2/app.py:14 | `float("4807.038")` is 4807.038 |
| Coordinate.ParseLongitudeField | code_2/code_2/app.py:24 | `float("01131.000")` is 1131, with the leading zero accepted |
| Coordinate.ExampleNorthEast | code_2/code_2/app.py:11-33 | `4807.038 N, 01131.000 E` gives `(48 + 7.038/60, 11 + 31/60)` |
| Coordinate.ExampleEmptyField | code_2/code_2/app.py:14 | an empty latitude field gives `(None, None)` |
| SentenceReader.StartsWith | code_2/code_2/app.py:52 | `line.startswith(prefix)`: the prefix fits in the line and the line's first characters are the prefix |
| SentenceReader.Classify | code_2/code_2/app.py:52-67 | a line that ends the scan yields a fix whose `clas_bytes` is the line's length (at least the prefix's 6), with both coordinates present or both absent |
| SentenceReader.FirstFix | code_2/code_2/app.py:47-74 | every result of a scan pairs its coordinates: both present or both `None` |
| SentenceReader.ReadFix | code_2/code_2/app.py:47-74 | the read loop returns exactly the first-match result `FirstFix` of its line stream |
| SentenceReader.GgaFieldSelection | code_2/code_2/app.py:52-58 | a `$GNGGA` sentence of more than nine fields passes its fields 2, 3, 4 and 5 to the parser, and its length as `clas_bytes` |
| SentenceReader.RmcFieldSelection | code_2/code_2/app.py:61-67 | a `$GNRMC` sentence of more than nine fields passes its fields 3, 4, 5 and 6 to the parser, and its length as `clas_bytes` |
| SentenceReader.SkippedLines | code_2/code_2/app.py:52-69 | a line is skipped exactly when it starts with neither prefix or has fewer than nine commas |
| SentenceReader.SkippedRun | code_2/code_2/app.py:69 | any run of skipped lines leaves the result to the lines after it |
| SentenceReader.FirstMatchWins | code_2/code_2/app.py:55-67 | the first matching line decides the result, even when its coordinates fail, and `clas_bytes` is its length |
| SentenceReader.EmptyFixUnlikeAnyMatch | code_2/code_2/app.py:74 | the fallback is `(None, None, 0)`, and no matched line ever yields it, since a matched line's `clas_bytes` is its length |
| SentenceReader.FallbackExactly | code_2/code_2/app.py:71-74 | the empty fix `(None, None, 0)` comes back exactly when no line of the stream matches |
| SentenceReader.LaterLinesUnread | code_2/code_2/app.py:58 | once a line matches, lines after it cannot change the result |
| SentenceReader.ScenarioGga | code_2/code_2/app.py:52-58 | the sentence joined from the fields `$GNGGA`, `123519`, `4807.038`, `N`, `01131.000`, `E`, ... gives `(48 + 7.038/60, 11 + 31/60)` and its own length |
| SentenceReader.ScenarioRmc | code_2/code_2/app.py:61-67 | the sentence joined from the fields `$GNRMC`, `123519`, `A`, `4807.038`, `S`, `01131.000`, `W`, ... gives two negative coordinates |
| SentenceReader.ScenarioEmptyFields | code_2/code_2/app.py:55-58 | `$GNGGA,,,,,,,,,,,,,,` ends the scan with no coordinates and `clas_bytes` 20, not 0, whatever follows it |
| SentenceReader.ScenarioNoSentence | code_2/code_2/app.py:74 | a stream of an empty line, a `$GNGSV` sentence and a short `$GNRMC` sentence gives the empty fix |

## Left out

- Serial I/O: opening `COM3` at 115200 baud, `readline` with its 3-second timeout, `time.sleep(0.1)` and the blocking `while True`. The model has a finite sequence of lines instead. It therefore does not capture the unbounded wait on a silent receiver.
- ASCII decoding with `errors='ignore'` and `.strip()`: the model receives decoded, stripped strings.
- `print` logging, which has no effect on results.
- The Flask application, CORS, the `/` and `/api/gnss_data` routes, `jsonify` and `render_template`. These are HTTP plumbing over libraries outside this model.
- `code_2/code_2/static/js/main.js`: browser UI (map, polling, DOM updates). It is not part of this model.
- NumericText.ParseFloat: accepts only `[+-]?` followed by digits with at most one decimal point and at least one digit. It returns `None` for text that Python's `float` accepts: exponents, surrounding whitespace, underscores between digits, `inf` and `nan`. Hence also the `OverflowError` of `int(inf)`, which only the outer handler catches, is not modelled.
- IEEE-754 rounding: all arithmetic is exact over `real`, so the proved properties hold of exact values, not of bit-exact doubles. Because `int` truncates, rounding can carry a field across a multiple of 100. For example, `5999.99999999999999999` rounds to 6000.0 and gives 60.0 in the source, but about 60.667 in the model. This gap arises only for fields with more significant digits than a double holds (about 15 to 17), which real NMEA fields never have.
- Overflow: a numeric field of magnitude about 1.8e308 or more (such as 310 integer digits without leading zeros) becomes `inf` under `float` at lines 14 and 24. `int(inf / 100)` then raises `OverflowError` at line 15 or 25. Only the outer handler at line 71 catches it, so the call ends with the empty fix `{None, None, 0}`. The model converts such a field exactly and returns two coordinates with `clas_bytes = len(line)`.
- SentenceReader.ScenarioGga and SentenceReader.ScenarioRmc: each is stated for the line `Join(fields)` built from the sentence's field list, with `clas_bytes` equal to that line's length. They do not prove that this line equals the quoted sentence as one string literal, nor that its length is 65 or 68.
