# ode-fit core: reading a plate assay and selecting wells

ode-fit fits an ODE model to plate-reader time courses. This project models
three parts of it:

- **Loading an assay.** The `Assay` constructor reads the DATA sheet of a
  plate-reader workbook. For each cycle it parses the header text
  "Cycle n (… h … min … s)" into seconds (`parse_time`). It reads every
  well's value into a flat wells-by-cycles array, stores a blank cell as a
  missing reading, and reshapes the array into a rows × columns × cycles
  matrix.
- **Selecting wells.** The configurator's `parse_wells` resolves the
  references of the fitter section against that matrix. A reference is a
  single well `B3` or an inclusive range `C3:G4`, in either case. It
  stacks the selected series, refuses a missing reading, and returns
  their mean cycle by cycle.
- **Validating the configuration.** The YAML configuration is checked
  against its schemas for assay, parameters, model, integration, fitter
  and the whole document.

Modules:

| file | module | models |
|---|---|---|
| `common.dfy` | `Common` | `Option` and `Result` |
| `text.dfy` | `Text` | ASCII digits, `str.upper`, `str.strip`, and Python's `int()` on text |
| `cycle_time.dfy` | `CycleTime` | `parse_time`: its two regular expressions as a parser over the text |
| `plate_reader.dfy` | `PlateReader` | the sheet layout, and the class `Assay` with its fill loops and the reshape |
| `well_selection.dfy` | `WellSelection` | `letter_to_number` and `parse_wells`: a specification by functions, plus the loop as a method |
| `well_properties.dfy` | `WellProperties` | what a selection means: single wells, ranges, order, repetition, missing readings |
| `config_schema.dfy` | `ConfigSchema` | a YAML value type, `Use(float)`, and each schema as a predicate |
| `configured_wells.dfy` | `ConfiguredWells` | what the fitter schema's reference pattern guarantees to `parse_wells` |

Where the design description and the code disagree, the model follows the
code:

- Parameters: the design asks for min < init < max. The code never checks
  it (`ConfigSchema.BoundsUnchecked`).
- Plate geometry: the design asks for positive `cols` and `rows`. The
  schema accepts any `int`, `True` included (`ConfigSchema.AssayOf`); a
  negative one then fails when the arrays are allocated
  (`PlateReader.Load`).
- Unreadable cycle header: the design calls this fatal. The code prints a
  message and stores a missing (NaN) time (`PlateReader.Assay.Fill`,
  `CycleTime.SecondsOnlyFails`).
- Column numbers: the design starts them at 1. The code accepts column "0",
  which selects the last column (`WellProperties.SingleWellOf`).
- Ranges: the design asks for r1 ≤ r2 and c1 ≤ c2. The code accepts a
  reversed range, which selects nothing; on its own it gives NaN in every
  cycle (`WellProperties.ReversedRangeEmpty`).

How Python semantics are represented:

- **Missing values.** NaN, from a blank cell or from `None` stored into a
  float array, is `None` of an `Option`.
- **Exceptions.** They are the `Failure` cases of a `Result`:
  - `LoadError` for the constructor;
  - `SelectError` for `parse_wells`: `IndexError`, `KeyError`,
    `ValueError`, and the `ValueError` raised for a missing reading.
- **Numbers.** Readings and means are reals, and integers are unbounded.
- **Mappings.** A loaded YAML mapping is a list of entries with distinct
  keys, and the value under a key is looked up by `ConfigSchema.Get`. The
  schemas do not depend on the order of the entries
  (`ConfigSchema.OrderIrrelevant`).
- **Coerced values.** `load_config` (Configurator.py:50-51) validates the
  document but returns it as loaded. The floats a `Use(float)` field is
  coerced to (`ConfigSchema.CoerceParam`), such as 1e-06 for the text
  "1e-6", are never passed on: later stages see the raw values.

## Model

| member | source | states |
|---|---|---|
| CycleTime.HmsTextParses | Assay.py:32-38 | Any header the first pattern matches, "Cycle c (h[ h][ m min][ s s])" with anything after it, parses to 3600·h + 60·m + s. An absent minute or second group counts as 0. |
| CycleTime.FirstNumberOf | Assay.py:32-34 | Both patterns skip the cycle number and read the first number in the parentheses. The first pattern reads it as hours, the second as minutes. |
| CycleTime.UnitStopsPatternOne | Assay.py:32 | After the hours the first pattern accepts only " h", a group, or ")". A unit other than h, such as " min", makes it fail. |
| CycleTime.MsTextParses | Assay.py:40-46 | "Cycle c (m min[ s s])" fails the first pattern and parses through the second to 60·m + s. |
| CycleTime.ParseTime | Assay.py:25-47 | The definition: pattern 1, and pattern 2 only when pattern 1 fails; None when both fail. Its meaning is stated by ParseTimeExactly. |
| CycleTime.MatchHms | Assay.py:32-38 | The definition of pattern 1 as a left-to-right parser: hours from the first number, optional " h", optional minute and second groups, then ")". |
| CycleTime.MatchMs | Assay.py:41-46 | The definition of pattern 2: minutes from the first number, " min", an optional second group, then ")". |
| CycleTime.MatchHmsForm | Assay.py:32-38 | Pattern 1 matches only a first-form header "Cycle c (h[ h][ m min][ s s])…", and its value is 3600·h + 60·m + s. |
| CycleTime.MatchMsForm | Assay.py:41-46 | Pattern 2 matches only a second-form header "Cycle c (m min[ s s])…", and its value is 60·m + s. |
| CycleTime.HmsHeaderParses | Assay.py:32-38 | Every first-form header parses to its value. |
| CycleTime.MsHeaderParses | Assay.py:40-46 | Every second-form header parses to its value. |
| CycleTime.ParseTimeExactly | Assay.py:25-47 | parse_time returns v if and only if the text is a header of the first or the second form worth v seconds. |
| CycleTime.ParseTimeNone | Assay.py:47 | parse_time returns nothing (the print path) if and only if the text is a header of neither form. |
| CycleTime.SecondsOnlyFails | Assay.py:32-47 | "Cycle c (n s)" matches neither pattern, so the result is None (the print path). |
| CycleTime.CycleNumberIgnored | Assay.py:32-41 | The cycle number does not affect the parsed time. |
| CycleTime.ExampleFull | Assay.py:32-38 | "Cycle c (1 h 2 min 3 s)" parses to 3723 seconds. |
| CycleTime.ExampleBareHours | Assay.py:32-38 | "Cycle c (5)" parses to 18000 seconds: a bare number is hours. |
| CycleTime.ExampleMinutesSeconds | Assay.py:41-46 | "Cycle c (4 min 5 s)" parses to 245 seconds. |
| CycleTime.ExampleMinutes | Assay.py:41-46 | "Cycle c (2 min)" parses to 120 seconds. |
| CycleTime.ExampleSecondsOnly | Assay.py:32-47 | "Cycle c (30 s)" does not parse. |
| CycleTime.GroupPresent | Assay.py:32 | An optional group " d min" / " d s" is taken with its value. |
| CycleTime.GroupAbsentOtherUnit | Assay.py:32 | An optional group with the wrong unit is skipped and contributes 0. |
| PlateReader.CycleBlock | Assay.py:72-78 | Cycle k's readings lie below its header, and the next cycle's header comes at least two rows after them. |
| PlateReader.HeaderRowIncreasing | Assay.py:72 | Header rows strictly increase with the cycle. |
| PlateReader.ReadingRowsDistinct | Assay.py:72-78 | Different (cycle, row) pairs read different sheet rows, and no reading row is a header row. |
| PlateReader.FlatIndex | Assay.py:79 | The flat index row·COLS + col of a well lies within ROWS·COLS. |
| PlateReader.FlatIndexInjective | Assay.py:79 | Two wells never share a flat index. |
| PlateReader.FlatIndexOnto | Assay.py:79-81 | Every flat index below ROWS·COLS is the index of the well (i / COLS, i % COLS). |
| PlateReader.Assay.constructor | Assay.py:65-67 | The time vector and the wells-by-cycles array are allocated full of zeros. |
| PlateReader.Assay.Fill | Assay.py:70-79 | The loops fail with the first unreadable cell in visiting order. When nothing fails, every time is its header parsed and every well holds its cell (blank → None). |
| PlateReader.Assay.FillCycle | Assay.py:71-79 | One cycle sets its time and every well of that cycle. No other cycle changes. |
| PlateReader.Assay.FillColumn | Assay.py:75-79 | One column of one cycle is read row by row into the flat index row·COLS + col. No other entry changes. |
| PlateReader.Assay.Matrix | Assay.py:81 | The reshaped matrix has shape ROWS × COLS × cycles, and entry [r][c][k] is flat entry [r·COLS + c, k]. |
| PlateReader.Load | Assay.py:64-81 | A negative size fails. Otherwise loading fails exactly when some visited cell is unreadable (with that cell's error), and a loaded assay satisfies Fill's promise. |
| PlateReader.MatrixReading | Assay.py:77-81 | In a loaded assay a blank cell is a missing reading in the matrix, and a number is that number. |
| WellProperties.LoadedPlateShaped | Assay.py:81 | The reshaped readings of a loaded assay have `rows` rows of `cols` wells, each with one reading per cycle: the shape `parse_wells` selects from. |
| PlateReader.TimeOfHeader | Assay.py:72 | In a loaded assay the time of cycle k is ParseTime of its header text. |
| PlateReader.ColumnErrorNone | Assay.py:76-79 | A column has no error exactly when each of its readings succeeds. |
| PlateReader.ColumnsErrorNone | Assay.py:75-79 | A cycle's columns have no error exactly when every reading succeeds. |
| PlateReader.SheetErrorNone | Assay.py:70-79 | The loops find no error exactly when every header and reading they visit succeeds. |
| PlateReader.LoadFailsIffUnreadable | Assay.py:70-79 | Filling fails if and only if the sheet is not readable at some visited cell. |
| PlateReader.Header | Assay.py:72 | The definition: the header cell of cycle k must exist and be text, and its value is ParseTime of that text. A number there is an error, since the regex cannot be applied to it. |
| PlateReader.Reading | Assay.py:77-79 | The definition: the reading cell must exist; a blank cell is a missing reading, a number is itself, and any other text is an error. |
| WellSelection.LetterNumberBijection | Configurator.py:100 | The table maps A..Z onto 0..25, one to one. Exactly the 26 upper-case letters have an entry. |
| WellSelection.LetterToNumber | Configurator.py:100 | The definition of the `letter_to_number` table: each of A..Z maps to its position in the alphabet, and any other character has no entry (a KeyError). |
| WellSelection.SliceBound | Configurator.py:112 | The Python slice rule for a bound: it lies within the sequence; a bound in range is kept, a negative one counts from the end, one past the end is clipped to the length and one before the start to 0. |
| WellSelection.RangeWells | Configurator.py:112-114 | The definition of a range selection: the rows lo..hi-1 of the 2-D slice, each cut to columns clo..chi-1, stacked row after row as the loop does. Its length and positions are stated by RangeWellsLength and RangeWellsIndex. |
| WellSelection.Field | Configurator.py:107 | The first piece of `split(":")` is a prefix holding no ':'. The ':' follows it when there is one. |
| WellSelection.RangeBounds | Configurator.py:107-112 | The four slice bounds of an accepted range lie within the plate. |
| WellSelection.SingleWell | Configurator.py:116-118 | The definition: the row letter, then int() of the rest minus one, then matrix[row][col]. A negative column counts from the end, and a row or column outside the plate is an IndexError. |
| WellSelection.Block | Configurator.py:105-118 | The definition: the reference is upper-cased; with a ':' it selects the range's wells row by row, and otherwise the single well. |
| WellSelection.Stack | Configurator.py:103-118 | The definition: the blocks of all references in order, or the error of the first failing one. |
| WellSelection.Select | Configurator.py:101-122 | The definition of what parse_wells returns: the stack's error, a missing-reading error, or the cycle-by-cycle mean. Its properties are stated by the WellProperties lemmas. |
| WellSelection.AppendRange | Configurator.py:112-114 | Stacking a range appends its wells row by row. |
| WellSelection.ParseWells | Configurator.py:101-122 | The loop returns exactly Select: the mean of the stacked series, or the first reference's error, or the missing-reading error. |
| WellSelection.RangeWellsLength | Configurator.py:112-114 | A range of rows lo..hi and columns clo..chi stacks (hi - lo)·(chi - clo) series. |
| WellSelection.RangeWellsIndex | Configurator.py:112-114 | Well (r, c) of a range sits at position (r - lo) * width + (c - clo) of the stack. |
| WellSelection.StackShaped | Configurator.py:113-118 | Every stacked series has one reading per cycle. |
| WellSelection.GatherStopsAt | Configurator.py:104-118 | The stack is abandoned at the first failing reference, with that reference's error. |
| WellSelection.Average | Configurator.py:122 | The mean has one value per cycle. |
| WellSelection.Total | Configurator.py:122 | The definition of `np.sum(wells, axis=0)` for one cycle: the sum of that cycle's readings over the stacked wells. |
| WellSelection.HasMissing | Configurator.py:120 | The definition of `np.isnan(wells).any()`: some stacked well has a missing reading in some cycle. |
| WellProperties.SingleWellOf | Configurator.py:115-118 | "Xn", in either case, selects matrix[X][n-1], and "X0" selects the last column. A non-letter is a KeyError. A row or column beyond the plate is an IndexError. |
| WellProperties.SingleWellValue | Configurator.py:116-118 | The same for an upper-cased reference whose column digits have been read. |
| WellProperties.CaseInsensitive | Configurator.py:105 | A reference selects what its upper-cased form selects. |
| WellProperties.RangeReadsOneDigit | Configurator.py:107-111 | A range reads only the row letter and the first character after it on each side. "A12:B3" selects what "A1:B3" does. |
| WellProperties.ColumnOfDigit | Configurator.py:110-111 | A single column digit d gives column d - 1. |
| WellProperties.BoundsOfRange | Configurator.py:107-112 | The slice bounds of "Aa:Bb" are rows A to B+1 and columns a-1 to b, clipped as Python slices are. |
| WellProperties.RangeOf | Configurator.py:106-114 | A range inside the plate selects rows A through B and columns a through b, both ends included, row by row. |
| WellProperties.RangeWellsCount | Configurator.py:112 | An inclusive range has (B - A + 1)·(b - a + 1) wells. |
| WellProperties.RangeWellsInclusive | Configurator.py:112-114 | Every well of the inclusive rectangle appears in the stack, at row-major position (r - A) * (b - a + 1) + (c - a). |
| WellProperties.RangeWellsEmpty | Configurator.py:112 | Slices whose end precedes their start select nothing. |
| WellProperties.ReversedRangeEmpty | Configurator.py:106-122 | A reversed range selects no well without an error, and on its own gives NaN in every cycle. |
| WellProperties.StackOne | Configurator.py:104-118 | Stacking one reference gives that reference's block. |
| WellProperties.GatherConcat | Configurator.py:104-118 | Stacking two lists one after the other is stacking their concatenation. The first failure wins. |
| WellProperties.BlocksConcat | Configurator.py:104 | The blocks of concatenated reference lists are the concatenated blocks. |
| WellProperties.GatherPermutation | Configurator.py:104-118 | Reordering the blocks keeps the stack successful and keeps the same series as a multiset. |
| WellProperties.StackPermutation | Configurator.py:104-118 | Reordering the references keeps the stacked series as a multiset. |
| WellProperties.BlocksPermutation | Configurator.py:104 | Reordering the references reorders their blocks. |
| WellProperties.GatherHolds | Configurator.py:104-118 | Every block of a successful stack succeeded, and its series are in the stack. |
| WellProperties.TotalConcat | Configurator.py:122 | The sum over a concatenated stack is the sum of the sums. |
| WellProperties.TotalPermutation | Configurator.py:122 | The sum does not depend on the order of the stack. |
| WellProperties.MissingPermutation | Configurator.py:120 | Whether a missing reading is present does not depend on the order. |
| WellProperties.SelectPermutation | Configurator.py:101-122 | Reordering the references gives the same mean. Success does not depend on the order. |
| WellProperties.SameSelection | Configurator.py:101-122 | Reordered references with a successful stack select the same result. |
| WellProperties.SelectOfWells | Configurator.py:120-122 | A complete stack gives its cycle-by-cycle sum divided by its height. |
| WellProperties.SelectOfOne | Configurator.py:101-122 | A single complete well gives its own series. |
| WellProperties.DuplicatesWeighted | Configurator.py:104-122 | A repeated reference counts as often as it is listed: [a, a, b] gives (2·s + t)/3. |
| WellProperties.AverageOfThree | Configurator.py:122 | The mean of the stack [s, s, t] is (2·s + t)/3 in every cycle. |
| WellProperties.StackOfThree | Configurator.py:104-118 | [a, a, b] stacks s, s, t. |
| WellProperties.MissingRejected | Configurator.py:120-121 | A missing reading in any selected well makes the whole selection fail. There is no partial mean. |
| Text.Upper | Configurator.py:105 | Upper-casing keeps the length and maps each character through its ASCII upper case. |
| Text.UpperIdempotent | Configurator.py:105 | Upper-casing twice is upper-casing once. |
| Text.ParseIntShow | Configurator.py:110-117 | int() of a decimal numeral, with an optional sign and surrounding white space, is its value. |
| Text.ParseInt | Configurator.py:110-117 | The definition of `int()` on text: white space stripped, an optional sign, then one or more decimal digits; anything else is a ValueError (None). |
| Text.ParseIntOfStripped | Configurator.py:117 | int() depends only on the text with white space stripped. |
| Text.DigitRunMaximal | Assay.py:32 | `\d+` takes the longest run of digits. |
| ConfigSchema.ExactKeys | config_schema.py:4-8 | The definition of the rule every dict schema applies: each key of the mapping is one the schema names, and each named key is present. |
| ConfigSchema.ExactKeysMeans | config_schema.py:4-8 | A mapping passes the key rule if and only if its key set equals the set of named keys: nothing missing, nothing extra. |
| ConfigSchema.UnlistedKeyRefused | config_schema.py:4-45 | A key that a section's schema does not name makes that section (or the whole document) invalid. |
| ConfigSchema.MissingKeyRefused | config_schema.py:4-45 | A key that a section's schema names may not be left out: without it the section is invalid. |
| ConfigSchema.OrderIrrelevant | config_schema.py:4-45 | Two mappings with the same entries in any order are accepted or refused alike by every schema. |
| ConfigSchema.FieldsByKey | config_schema.py:4-45 | For a mapping with the named keys, checking each entry equals checking the value looked up under each named key. |
| ConfigSchema.AssayOf | config_schema.py:4-8 | For every mapping: the assay section is valid if and only if its keys are exactly file_path, cols and rows, in any order, the value under file_path is a path ending in ".xls", and those under cols and rows are ints (bool counts as int). ".xlsx" is rejected. |
| ConfigSchema.AssayValid | config_schema.py:4-8 | The definition: exactly the keys file_path, cols and rows; a path ending in ".xls", and int (bool included) sizes. |
| ConfigSchema.ParamValid | config_schema.py:10-14 | The definition: exactly the keys init_guess, max and min, each accepted by float(). |
| ConfigSchema.ParametersValid | config_schema.py:16-18 | The definition: a mapping with at least one entry, each keyed by a string and holding a valid parameter. |
| ConfigSchema.ModelValid | config_schema.py:20-25 | The definition: exactly the keys func_path, parameters, y0 and max_value, each checked as the model schema says. |
| ConfigSchema.IntegrationValid | config_schema.py:27-31 | The definition: exactly the keys atol, rtol and method; the tolerances accepted by float(), the method any string. |
| ConfigSchema.FitterValid | config_schema.py:34-37 | The definition: exactly the keys data_wells and control_wells, each a list of accepted references. |
| ConfigSchema.ConfigValid | config_schema.py:39-45 | The definition: exactly the five top-level keys, the title a string and each section valid. |
| ConfigSchema.WellRefValid | config_schema.py:35 | The definition of the reference pattern: "Xn" or "Xn:Ym" with one upper-case letter and one or two digits each, optionally followed by a final newline. |
| ConfigSchema.ToFloat | config_schema.py:11 | The definition of `Use(float)`: an int, bool or float converts, a string is parsed by ParseFloat, and anything else is refused. |
| ConfigSchema.ParseFloat | config_schema.py:11 | The definition of float() on text: white space stripped, an optional sign, a decimal mantissa and an optional exponent. |
| ConfigSchema.ParamOf | config_schema.py:10-14 | For every mapping: a parameter is valid if and only if its keys are exactly init_guess, max and min, in any order, and the value under each converts with float(). |
| ConfigSchema.CoerceParam | config_schema.py:10-14 | Coercion succeeds exactly when the parameter is valid. It yields the three keys with their float values. |
| ConfigSchema.BoundsUnchecked | config_schema.py:10-14 | init_guess 5 with max 1 and min 10 is accepted: the bounds are not ordered. |
| ConfigSchema.ParametersNonEmpty | config_schema.py:16-22 | An empty parameters mapping is refused: the parameters schema's `str` key is required, so at least one parameter must be given, and the model schema refuses it too. |
| ConfigSchema.ModelOf | config_schema.py:20-25 | For every mapping: the model section is valid if and only if its keys are exactly func_path, parameters, y0 and max_value, the function path ends in ".py", there is at least one valid parameter, y0 lists only numbers, and max_value converts with float(). |
| ConfigSchema.InitialValues | config_schema.py:23 | y0 may be empty and may hold bool, int or float. A string or null is refused. |
| ConfigSchema.AnyMethod | config_schema.py:27-31 | For every mapping: the integration section is valid if and only if its keys are exactly atol, rtol and method, both tolerances convert, and the method is a string. Any method name is accepted. |
| ConfigSchema.FitterOf | config_schema.py:34-37 | For every mapping: the fitter section is valid if and only if its keys are exactly data_wells and control_wells and both lists hold only accepted references. |
| ConfigSchema.ConfigOf | config_schema.py:39-45 | For every mapping: the document is valid if and only if its keys are exactly title, assay, model, integration and fitter, the title is a string and each section is valid. |
| ConfigSchema.ConfigByFields | config_schema.py:39-45 | The document is valid if and only if it has the five keys and the value under each passes that key's check. |
| ConfigSchema.LowercaseRejected | config_schema.py:35 | A reference starting with a lower-case letter is refused. |
| ConfigSchema.SingleRefValid | config_schema.py:35 | An upper-case letter with one or two digits is accepted, also with a final newline (Python's `$`). |
| ConfigSchema.ThreeDigitsRejected | config_schema.py:35 | A letter with three digits is refused. |
| ConfigSchema.ParseFloatNumeral | config_schema.py:11 | float() of a decimal numeral is its value. |
| ConfigSchema.ParseFloatNegative | config_schema.py:11 | float() of "-n" is -n. |
| ConfigSchema.ParseFloatFraction | config_schema.py:11 | float() of "d.f" is d + f / 10^len(f). |
| ConfigSchema.ParseFloatExponent | config_schema.py:11 | float() of "de-k" is d / 10^k, as YAML's string "1e-6" converts. |
| ConfigSchema.ExponentMark | config_schema.py:11 | The exponent mark of a float literal is its first 'e' or 'E'. |
| ConfiguredWells.AcceptedSingle | Configurator.py:115-118 | A single reference the fitter schema's pattern (config_schema.py:35) accepts holds no ':'. It selects a well or raises IndexError, never KeyError or ValueError. |
| ConfiguredWells.SingleNewline | Configurator.py:117 | The final newline the pattern lets through is white space to int(): "B3\n" selects what "B3" does. |
| ConfiguredWells.AcceptedRange | Configurator.py:106-114 | A range the fitter schema's pattern accepts never fails, and a second column digit is ignored. |
| ConfiguredWells.AcceptedReference | Configurator.py:104-118 | Every reference the fitter schema's pattern accepts selects its wells or raises IndexError. An accepted range always selects. |
| ConfiguredWells.GatherOnlyIndexErrors | Configurator.py:104-118 | A stack of blocks that only fail with IndexError fails only with IndexError. |
| ConfiguredWells.AcceptedList | Configurator.py:101-122 | A well list the fitter schema (config_schema.py:34-37) validates yields a mean, a missing-reading error or an IndexError. |

## Left out

- Workbook I/O (Assay.py:53-62): opening the file, the Protocol Information sheet, the test name, the measurement, and the cycle count and cycle time read from it. The model takes the DATA sheet as a value and the cycle count as a parameter.
- Cells holding numeric text, and dates: a cell is a number or text, and a reading that is non-blank text is an error.
- Ragged sheets: xlrd pads short rows to the sheet's width, so a cell past the end of a short row reads blank. The model's sheet has no width of its own, and such a cell is an out-of-sheet error.
- The message printed when a header does not parse (Assay.py:47): only its effect, a missing time, is modelled.
- Floating point: readings, means and `float()` results are exact reals. NaN is `None`, so the `isnan` test is a test for `None`.
- Unicode: `\d`, `int()`, white space and `upper()` are modelled on ASCII only. Digits, spaces and case mappings outside ASCII are not.
- `int()` with underscores (`"1_0"`) is not modelled; such text is a ValueError here.
- ConfigSchema.ParseFloatExponent: stated only for a negative exponent on an unsigned integer mantissa; the model's `float()` also handles a sign, a fraction and a positive exponent, but no lemma states them. It refuses "inf", "nan", "infinity", underscores and non-ASCII digits, which Python accepts.
- YAML loading: duplicate keys, anchors, dates and the YAML 1.1 resolution rules are left out. Documents are taken as already-loaded values, and the lemmas that look a value up by its key take a mapping whose keys are distinct (`ConfigSchema.UniqueKeys`), as a loaded mapping's are.
- ConfigSchema.CoerceParam: its result is stated in general, but no lemma evaluates it on a concrete mapping.
- The logger calls, and the rest of the configurator (building the model, the fitter and the report), are not part of this model.
