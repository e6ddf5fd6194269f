# Heatmap calendar: a verified model of its layout and colouring logic

The heatmap calendar plugin draws a GitHub-style grid of days, one box per
day. Each box can carry a calendar entry, and the entry's colour comes from
a palette according to its intensity. This project models, in Dafny, the
logic behind that grid:

- **Date utilities.** UTC date strings `YYYY-MM-DD`, zero padding, day
  arithmetic, flooring to midnight, and the start and end of a week.
- **The entry getters.** The effective intensity, with its default, and
  the palette name.
- **Boxes.** A box is made from a date or from an entry.
- **The layout base class.** Day-of-week labels rotated to the configured
  first day of the week, and the "Not Implemented" operations.
- **The year layout.** Leading boxes to the start of the week, then one
  box per day of the year. Filtering entries to the year, and the month
  labels.
- **The rolling layout.** A window from the start of the week one year
  ago to the end of the current week, with its iteration guard.
  Filtering entries to the window, and month labels that end with the
  current month.
- **The Intensor.** The data range, one linear function per palette
  from that range onto palette indices, and the mapping of an entry to a
  colour.
- **The older IntensityResolver.** Its constructor and `isBinary`.
- **The first half of `render`.** Choose the layout, filter the entries,
  build the Intensor, generate the boxes, attach each entry to the first
  box of its date, and replace its palette name by its colour.

Modelling choices:

- A JavaScript `Date` is an integer count of milliseconds since the Unix
  epoch, read in UTC. The Gregorian calendar is built from day counts
  (module `Calendar`) and proved to round-trip.
- The clock (`Date.now()`), the plugin settings (first and last day of the
  week, default palette, default intensity) and, for the one place where
  the code reads local time, the local time-zone offset are explicit
  parameters.
- Numbers in the Intensor are exact reals. Bounds that JavaScript computes
  as `Infinity` (the minimum or maximum of no numbers) are extended reals.
- Loops of the source are methods with loop invariants, each proved equal
  to a specification function. Properties are proved about those
  functions.
- Thrown errors are the `Fail` case of a `Result`.
- One `clock` reading stands for all the `Date.now()` calls of one render.
  The rolling layout reads the clock several times (src/js/RollingLayout.ts:45-48, 60),
  and a render that straddles midnight could see two different days. The
  model does not capture that.
- `render` is assembled with the year layout of src/model/YearLayout.ts.
  src/js/HeatmapCalendar.ts:4 imports `./YearLayout.js`, which in this
  source tree is src/js/YearLayout.ts, a file that is not part of this
  model.

The layout classes are one datatype (`Layout.LayoutKind`), with the base
class as its own case. Each of its operations dispatches on that case.

Where the code and its design notes disagree, the model follows the code:

- The year layout's day loop runs from day 0 to the number of days in the
  year inclusive. It therefore emits 366 boxes in a common year and 367 in
  a leap year, ending with January 1st of the next year. The design notes
  say one box per day of the year.
- An Intensor colour function built from a one-point range is not given a
  guarded binary mode as the notes suggest. It stays the non-finite
  function the code computes.

## Model

| member | source | states |
|---|---|---|
| Common.Message | src/intensity/Intensor.ts:46-48 | every failure carries a non-empty message, one per kind of throw (Not Implemented, too many iterations, no ColorOptions) |
| Common.Filter | src/model/YearLayout.ts:49 | Array.prototype.filter keeps exactly the elements that pass the test, and never more elements than it was given |
| Common.FilterAll | src/model/YearLayout.ts:49 | filtering a list whose elements all pass keeps the list |
| Common.FilterNone | src/model/YearLayout.ts:49 | filtering a list none of whose elements passes gives the empty list |
| Common.FilterAppend | src/js/RollingLayout.ts:52-56 | filtering a concatenation filters each part and concatenates the results, so the filter keeps order |
| Common.RotatePermutes | src/model/Layout.ts:24 | `slice(k)` followed by `slice(0, k)` is a permutation of the list |
| Common.RotateAt | src/model/Layout.ts:24 | item i of the rotated list is item k + i, wrapping round the end |
| Calendar.DayOfShift | src/js/DateUtil.ts:57-59 | adding k days of milliseconds moves the UTC day by k and keeps the time of day |
| Calendar.NextWeekDay | src/js/DateUtil.ts:98-99 | stepping forward from a day reaches the requested week day within 0..6 days, and no day before that has it |
| Calendar.PrevWeekDay | src/js/DateUtil.ts:111-112 | stepping back from a day reaches the requested week day within 0..6 days, and no day after that has it |
| Calendar.DaysBeforeNextYear | src/model/YearLayout.ts:67-68 | a year is 365 days long, or 366 in a Gregorian leap year |
| Calendar.CivilFromDays | src/js/DateUtil.ts:36 | getUTCFullYear/getUTCMonth/getUTCDate give a valid calendar date whose day number is the given one |
| Calendar.CivilRoundTrip | src/js/DateUtil.ts:36 | the date of a valid calendar date's day number is that same date |
| Calendar.CivilInjective | src/js/DateUtil.ts:36 | two days with the same calendar date are the same day |
| Calendar.MakeDayCivil | src/js/DateUtil.ts:72 | Date.UTC's day for an in-range year, month and day is that calendar date's day |
| Calendar.MakeDayInYear | src/model/YearLayout.ts:15-20 | the distance from Date.UTC(y, 0, 0) to Date.UTC(y, m, d) is the days before month m plus d |
| Decimal.NatToStringRoundTrip | src/js/DateUtil.ts:24 | reading back the decimal digits of n's `toString()` gives n |
| Decimal.IntToStringInjective | src/js/DateUtil.ts:36 | different years print differently |
| Decimal.FourDigitsValue | src/js/DateUtil.ts:36 | a four-digit numeral without a leading zero is the `toString()` of its value |
| DateUtil.ZeroPadded | src/js/DateUtil.ts:23-30 | the input is padded on the left with zeros to the requested length, and left alone when it is already as long |
| DateUtil.PadLeft | src/js/DateUtil.ts:23-30 | the while loop prepends zeros until the length is reached, giving exactly ZeroPadded's result |
| DateUtil.TwoDigitShape | src/js/DateUtil.ts:36 | `padLeft(n, 2)` of a number under 100 is its tens digit followed by its units digit |
| DateUtil.DateStringOfCivil | src/js/DateUtil.ts:35-37 | getDateString of an instant is its UTC year, two-digit month and two-digit day joined with '-' |
| DateUtil.CivilTextInjective | src/js/DateUtil.ts:35-37 | different valid calendar dates have different date strings |
| DateUtil.DateStringSameDay | src/js/DateUtil.ts:35-37 | two instants have the same date string exactly when they fall on the same UTC day |
| DateUtil.DatesMatchProperties | src/js/DateUtil.ts:43-52 | datesMatch is symmetric, and on two Dates it holds exactly when they share a UTC day |
| DateUtil.IncrementDate | src/js/DateUtil.ts:57-59 | incrementDate moves count days later at the same time of day |
| DateUtil.DecrementDate | src/js/DateUtil.ts:64-66 | decrementDate moves count days earlier at the same time of day |
| DateUtil.IncrementDecrementInverse | src/js/DateUtil.ts:57-66 | incrementing and decrementing by the same count undo each other, in both orders |
| DateUtil.DateUtc | src/js/DateUtil.ts:72 | Date.UTC gives the midnight of MakeDay for the year it actually uses |
| DateUtil.UtcYear | src/js/DateUtil.ts:72 | Date.UTC reads a year from 0 to 99 as 1900 + year and every other year as given |
| DateUtil.TimeFloorAsWrittenMovesEarlyYears | src/js/DateUtil.ts:71-73 | as written, timeFloorDate of an instant in the years 0 to 99 is a later day, in 1900 or after |
| DateUtil.TimeFloorAsWrittenYear50 | src/js/DateUtil.ts:71-73 | as written, timeFloorDate turns 0050-01-01 into 1950-01-01 |
| DateUtil.TimeFloorDate | src/js/DateUtil.ts:71-73 | timeFloorDate is the midnight that starts the instant's UTC day: at or before it, less than a day before |
| DateUtil.TimeFloorIdempotent | src/js/DateUtil.ts:71-73 | flooring twice is flooring once, and flooring keeps the date string |
| DateUtil.TimeFloorAgrees | src/js/DateUtil.ts:71-73 | outside the years 0 to 99, timeFloorDate as written is the corrected floor |
| DateUtil.IsToday | src/js/DateUtil.ts:85-87 | isToday holds exactly when the string is the date string of the clock's UTC day |
| DateUtil.EndOfWeek | src/js/DateUtil.ts:95-102 | the end of the week is the first midnight, from the instant's day on, whose week day is endOfWeek (the same day when it already is) |
| DateUtil.StartOfWeek | src/js/DateUtil.ts:108-115 | the start of the week is the last midnight, at or before the instant's day, whose week day is startOfWeek |
| DateUtil.GetNow | src/js/DateUtil.ts:78-80 | the runtime day is the UTC midnight that begins the clock's day, and it has the clock's date string |
| DateUtil.GetEndOfWeekDate | src/js/DateUtil.ts:95-102 | the incrementing loop stops at EndOfWeek |
| DateUtil.GetStartOfWeekDate | src/js/DateUtil.ts:108-115 | the decrementing loop stops at StartOfWeek |
| DateUtil.StartOfWeekWalkTime | src/js/DateUtil.ts:108-115 | from a valid time value, k passes of the decrementing loop give the floored value k days earlier |
| DateUtil.StartOfWeekWalkNaN | src/js/DateUtil.ts:108-115 | from NaN, every pass of the decrementing loop gives NaN again, whose week day is never the week start |
| DateUtil.ParseDate | src/js/RollingLayout.ts:54 | `new Date("YYYY-MM-DD")` of an existing day is that day's UTC midnight; texts outside that form are treated as an invalid date |
| DateUtil.ParseFields | src/js/RollingLayout.ts:54 | a parsed date is valid exactly when its month and day exist, and it is that date's midnight |
| DateUtil.ParseDateString | src/js/RollingLayout.ts:54 | parsing getDateString of an instant in a four-digit year gives back that instant floored to midnight |
| DateUtil.ParsedDateString | src/js/RollingLayout.ts:54 | a date string that parses and has no leading zero is getDateString of what it parses to |
| Entries.Intensity | src/model/Entry.ts:24-39 | an entry's own intensity is kept (zero included); without one the configured default is used when truthy, else 0 |
| Entries.IntensityTruthy | src/model/Entry.ts:24-39 | the effective intensity is non-zero exactly when the entry's own is, or it has none and the default is non-zero |
| Entries.PaletteName | src/model/Entry.ts:42-44 | the color getter is the entry's palette name when non-empty, else the default palette |
| Boxes.FromDate | src/js/Box.ts:16-18 | a box made from a date has no entry |
| Boxes.FromDateSameDay | src/js/Box.ts:16-18 | two dates make boxes with the same date exactly when they are on the same UTC day |
| Boxes.FromDateParses | src/js/Box.ts:16-18 | a box's date parses back to the midnight of the day it was made from |
| Boxes.FromEntry | src/js/Box.ts:20-26 | a box made from an entry has the entry's date and holds the entry |
| Boxes.BackgroundColor | src/js/Box.ts:36-38 | the background colour getter is the empty string |
| Boxes.Content | src/js/Box.ts:40-42 | the content is the entry's content, or the empty string for a box without an entry |
| Boxes.ContentOfBoxes | src/js/Box.ts:40-42 | a box from an entry shows the entry's content, and a box from a date shows "" |
| Boxes.DayBoxesLabels | src/js/Box.ts:16-18 | box i of a run of day boxes carries the date of the first day plus i, and no entry |
| Boxes.DayBoxesDistinct | src/js/Box.ts:16-18 | a run of day boxes never repeats a date |
| Boxes.DayStringsDistinct | src/js/DateUtil.ts:35-37 | different days have different date strings |
| Boxes.PushDate | src/model/YearLayout.ts:63 | pushing the box of the next day extends the run of day boxes by one |
| Layout.SliceIndex | src/model/Layout.ts:24 | slice's index: a negative index counts back from the end, and both kinds are clamped to the list |
| Layout.Slice | src/model/Layout.ts:24 | Array.prototype.slice is the sub-list between the two clamped indices, or empty when they cross |
| Layout.DayOfWeekLabels | src/model/Layout.ts:22-25 | the labels are the week-day names rotated to the configured first day |
| Layout.DayOfWeekLabelsRotated | src/model/Layout.ts:22-25 | the labels are always the seven names once each; label i names week day start + i, and a start from 0 to 6 comes first |
| Layout.DayOfWeekLabelsExamples | src/model/Layout.ts:5 | a Sunday start gives Sun..Sat and a Monday start gives Mon..Sun |
| Layout.FilterEntries | src/model/Layout.ts:9-11 | filterEntries throws Not Implemented on the base class; the subclasses keep only entries they were given, the year layout exactly those YearLayout.FilterEntries keeps and the rolling layout exactly those RollingLayout.FilterEntries keeps |
| Layout.GetMonthLabels | src/model/Layout.ts:18-20 | getMonthLabels throws on the base class and gives each subclass's labels otherwise |
| Layout.GenerateBoxes | src/model/Layout.ts:14-16 | generateBoxes throws on the base class and gives each subclass's boxes otherwise |
| YearLayout.DaysIntoYear | src/model/YearLayout.ts:15-20 | getHowManyDaysIntoYear is the days of the year before the month plus the day of the month |
| YearLayout.DaysIntoYearExamples | src/model/YearLayout.ts:12 | January 1st is day 1 and February 3rd is day 34, in every year |
| YearLayout.DaysIntoYearLastDay | src/model/YearLayout.ts:67-68 | December 31st is day 365, or 366 in a leap year |
| YearLayout.MonthLabels | src/model/YearLayout.ts:44-46 | the year layout's month labels run Jan to Dec |
| YearLayout.FilterEntriesAsWritten | src/model/YearLayout.ts:48-50 | as written, an entry is kept when its date read as local midnight has the layout's year in UTC |
| YearLayout.FilterDropsNewYearEastOfUtc | src/model/YearLayout.ts:49 | as written, east of UTC an entry dated January 1st of the year is dropped |
| YearLayout.FilterDropsNewYearExample | src/model/YearLayout.ts:49 | as written, one hour east of UTC, the entry dated 2019-01-01 is dropped from 2019 |
| YearLayout.FilterKeepsNextNewYearEastOfUtc | src/model/YearLayout.ts:49 | as written, east of UTC (by at most a day) an entry dated January 1st of the next year is kept, where the corrected filter drops it |
| YearLayout.FilterKeepsNextNewYearExample | src/model/YearLayout.ts:49 | as written, one hour east of UTC, the entry dated 2020-01-01 is kept in 2019; the corrected filter drops it |
| YearLayout.InYearAgreesAtOrWestOfUtc | src/model/YearLayout.ts:49 | at UTC or up to a day west of it, the test as written keeps an entry exactly when the corrected test does |
| YearLayout.FilterAgreesAtOrWestOfUtc | src/model/YearLayout.ts:48-50 | at UTC or up to a day west of it, the filter as written gives the same list as the corrected filter, in the same order |
| YearLayout.InYearByText | src/model/YearLayout.ts:49 | an entry is in the year exactly when its date parses and its four year digits spell the year |
| YearLayout.FilterEntries | src/model/YearLayout.ts:48-50 | corrected filter: exactly the entries whose date parses and is written in the layout's year |
| YearLayout.TestEntryInYear | test/TestData.ts:34-40 | an entry built for a valid date of a four-digit year is in exactly the year it names |
| YearLayout.FilterEntriesExample | test/YearLayout.spec.ts:59-64 | of the ten test entries from 2018-12-29 to 2020-01-02, the 2019 filter keeps the five of 2019, in order |
| YearLayout.LeadDay | src/model/YearLayout.ts:56 | the leading start is the last day of the configured week-start day at or before January 1st |
| YearLayout.LeadDayIsStartOfWeek | src/model/YearLayout.ts:56 | that day is getStartOfWeekDate of January 1st |
| YearLayout.FirstDayFloorExact | src/model/YearLayout.ts:55-56 | January 1st as the layout builds it is left where it is by timeFloorDate as written, as by the corrected floor |
| YearLayout.YearlessLeadNeverStops | src/model/YearLayout.ts:55-56 | without a year, January 1st is NaN, and no number of steps of getStartOfWeekDate from it reaches a week start |
| YearLayout.LeadingBoxes | src/model/YearLayout.ts:62-65 | the leading loop emits one box per day from the week start up to, but excluding, January 1st |
| YearLayout.YearDayBoxes | src/model/YearLayout.ts:71-74 | the day loop emits one box for each of the days 0..lastDay after January 1st |
| YearLayout.GenerateBoxes | src/model/YearLayout.ts:52-77 | generateBoxes gives the leading boxes followed by the year's day boxes |
| YearLayout.YearBoxesShape | src/model/YearLayout.ts:52-77 | 0..6 leading boxes starting on the week-start day, then the days from January 1st up to January 1st of the next year inclusive |
| YearLayout.YearBoxesDistinct | src/model/YearLayout.ts:52-77 | no date appears twice among the year layout's boxes |
| RollingLayout.FirstDay | src/js/RollingLayout.ts:21-26 | the window starts on the last week-start day at or before today minus 365 days |
| RollingLayout.LastDay | src/js/RollingLayout.ts:28-31 | the window ends on the first week-end day at or after today |
| RollingLayout.RollingStartFromNow | src/js/RollingLayout.ts:21-26 | getRollingStartDate is getStartOfWeekDate of now minus ONE_YEAR_MILI |
| RollingLayout.RollingEndFromNow | src/js/RollingLayout.ts:28-31 | getRollingEndDate is getEndOfWeekDate of now |
| RollingLayout.GetRollingStartDate | src/js/RollingLayout.ts:21-26 | the method computes the window's first midnight |
| RollingLayout.GetRollingEndDate | src/js/RollingLayout.ts:28-31 | the method computes the window's last midnight |
| RollingLayout.WindowSpan | src/js/RollingLayout.ts:59-82 | the window is 366 to 378 days long, below the 390-iteration guard, and whole weeks when the week end is the day before the week start |
| RollingLayout.BoxesBetween | src/js/RollingLayout.ts:68-81 | the guarded loop gives one box per day from start to end inclusive, or fails with too many iterations when it would pass 390 |
| RollingLayout.GenerateBoxes | src/js/RollingLayout.ts:59-82 | generateBoxes never hits the guard and gives the window's boxes |
| RollingLayout.WindowFitsGuard | src/js/RollingLayout.ts:76-78 | the window always fits under the iteration guard |
| RollingLayout.RollingBoxesShape | src/js/RollingLayout.ts:59-82 | there are as many boxes as days in the window, between 366 and 378 |
| RollingLayout.RollingBoxesDistinct | src/js/RollingLayout.ts:59-82 | no date appears twice among the rolling layout's boxes |
| RollingLayout.WindowEnds | src/js/RollingLayout.ts:59-82 | the first box is labelled with the window's first day and the last with its last day |
| RollingLayout.RollingBoxesExample | test/RollingLayout.spec.ts:133-145 | at 12:06 UTC on 2019-06-20 with weeks from Sunday to Saturday, there are 371 boxes, from 2018-06-17 to 2019-06-22 |
| RollingLayout.FilterEntries | src/js/RollingLayout.ts:44-57 | exactly the entries whose date parses to a day in the window, ends included |
| RollingLayout.MonthsAfterOrder | src/js/RollingLayout.ts:84-94 | the twelve month names once each, starting after the current month and ending with it |
| RollingLayout.GetMonthLabels | src/js/RollingLayout.ts:84-94 | the labels of the clock's UTC month |
| RollingLayout.MonthLabelsFrom | src/js/RollingLayout.ts:87-91 | the loop picks MONTHS[(offset + i) % 12] for i from 0 to 11 |
| RollingLayout.MonthsAfterJune | src/js/RollingLayout.ts:84-94 | in June the labels run Jul..Jun |
| Intensor.MakeLinearFunc | src/intensity/Intensor.ts:24-29 | the function is the line through (x1, y1) and (x2, y2), and is not finite when x1 == x2 |
| Intensor.LinearMonotone | src/intensity/Intensor.ts:24-29 | a line from a lower to a higher point never decreases |
| Intensor.Clamp | src/intensity/Intensor.ts:31-33 | the result lies in [min, max], equals the input inside it, is min below it and max above it |
| Intensor.ClampMonotone | src/intensity/Intensor.ts:31-33 | clamping keeps order |
| Intensor.Ceil | src/intensity/Intensor.ts:113 | Math.ceil is the least integer at or above its argument |
| Intensor.TruthyIntensities | src/intensity/Intensor.ts:71-75 | exactly the non-zero effective intensities of the entries |
| Intensor.MinOf | src/intensity/Intensor.ts:80 | Math.min is +Infinity on no numbers, otherwise the least of them |
| Intensor.MaxOf | src/intensity/Intensor.ts:79 | Math.max is -Infinity on no numbers, otherwise the greatest of them |
| Intensor.PlusOne | src/intensity/Intensor.ts:79 | adding one keeps an infinity and moves a number up by one |
| Intensor.GetDataRange | src/intensity/Intensor.ts:70-93 | the method builds the pair [min, max + 1] and overwrites each end with a configured scale, giving DataRange |
| Intensor.DataRangeFromData | src/intensity/Intensor.ts:70-82 | without a scale, the range is [least, greatest + 1) over the non-zero intensities, every one inside it; with none it is [+Infinity, -Infinity] |
| Intensor.DataRangeFromScale | src/intensity/Intensor.ts:84-90 | a configured start (0 included) replaces the minimum, and a configured end, plus one, replaces the maximum |
| Intensor.DataRangeIgnoresZero | src/intensity/Intensor.ts:74 | an entry of intensity zero does not change the range |
| Intensor.PaletteFunction | src/intensity/Intensor.ts:56-61 | a palette's function maps the range's low end to 0 and its high end to the palette's length, and is finite only for two distinct finite ends |
| Intensor.PaletteFunctions | src/intensity/Intensor.ts:54-62 | there is one colour function per palette key |
| Intensor.ColorIndex | src/intensity/Intensor.ts:113 | the index is inside a non-empty palette |
| Intensor.ColorIndexMonotone | src/intensity/Intensor.ts:112-114 | a higher intensity never gets an earlier colour |
| Intensor.ColorIndexAtBounds | src/intensity/Intensor.ts:112-114 | the range's low end gets the first colour and its high end the last |
| Intensor.PaletteLine | src/intensity/Intensor.ts:56-61 | the palette function over [lo, hi] is (x - lo) * n / (hi - lo) |
| Intensor.IndexBand | src/intensity/Intensor.ts:112-114 | an intensity whose scaled value lies in (k - 1, k] gets index k, clamped |
| Intensor.IndexBelowRange | src/intensity/Intensor.ts:112-114 | an intensity at or below the range's start gets the first colour |
| Intensor.IndexTopBand | src/intensity/Intensor.ts:112-114 | an intensity in the top band gets the last colour |
| Intensor.IndexSteps | src/intensity/Intensor.ts:112-114 | over a range of w with m * w colours, the j-th step gets index m * j |
| Intensor.RegularSeriesVectors | src/intensity/Intensor.ts:112-114 | intensities 1..5 over the data 1..5 get the five colours in order; with ten colours, every other one |
| Intensor.BinaryScaleVectors | src/intensity/Intensor.ts:112-114 | with the scale 0..0, anything at or above 1 gets the last colour and anything at or below 0 the first |
| Intensor.WideDataVectors | src/intensity/Intensor.ts:112-114 | over the data -300..500, intensities 1..5 share the middle colour and the extremes get the ends |
| Intensor.ClampedScaleVectors | src/intensity/Intensor.ts:112-114 | with the scale 1..5, values outside it clamp to the first and last colours |
| Intensor.ZeroStartVectors | src/intensity/Intensor.ts:112-114 | with the scale 0..5, intensity 0 gets the first colour, 1 the second, 2 the third, and 4 and up the last |
| Intensor.ZeroStartColors | test/Intensor.spec.ts:225-250 | end to end, with the scale 0..5 and palette A, intensities 0, 1, 2 and 4 and up get '#111', '#222', '#333' and '#555', whatever the entries |
| Intensor.NarrowRangeVectors | src/intensity/Intensor.ts:112-114 | over the data 1..100, intensities 15..18 get the second colour and 99 up get the last |
| Intensor.PaletteOf | src/intensity/Intensor.ts:101 | the palette looked up is the entry's, else the default palette setting, else the Intensor's default palette |
| Intensor.MapColor | src/intensity/Intensor.ts:104-123 | a palette without a function gives the fallback colour; otherwise a colour of that palette, or undefined exactly when the palette is empty or its function is not finite |
| Intensor.FirstPalette | src/intensity/Intensor.ts:95-97 | the default palette is the first key when it is non-empty, else "default" |
| Intensor.ColorOf | src/intensity/Intensor.ts:99-125 | an entry's colour is the fallback colour or a colour of the palette it names |
| Intensor.Intensor.constructor | src/intensity/Intensor.ts:42-63 | the constructor keeps the colour options and builds each palette's function over the data range |
| Intensor.Intensor.GetDefaultPalette | src/intensity/Intensor.ts:95-97 | getDefaultPalette is FirstPalette of the colour names |
| Intensor.Intensor.MapEntry | src/intensity/Intensor.ts:99-125 | mapEntry gives ColorOf the entry under the Intensor's options and functions |
| Intensor.NewIntensor | src/intensity/Intensor.ts:42-63 | `new Intensor` throws "no ColorOptions" exactly when there are no colour keys; otherwise the functions are those of the data range |
| IntensityResolver.RawIntensities | src/js/IntensityResolver.ts:21 | exactly the entries' truthy intensities |
| IntensityResolver.Coalesce | src/js/IntensityResolver.ts:23-27 | `a ?? b` is a unless a is missing |
| IntensityResolver.NewResolver | src/js/IntensityResolver.ts:18-28 | the scale start and end default to the minimum and maximum |
| IntensityResolver.ResolverRange | src/js/IntensityResolver.ts:24-25 | with data, the minimum and maximum are the least and greatest truthy intensities; without, the configured scale |
| IntensityResolver.ResolverScale | src/js/IntensityResolver.ts:26-27 | a configured scale, 0 included, is kept; a missing one falls back on the data |
| IntensityResolver.BinaryWhenUniform | src/js/IntensityResolver.ts:34-37 | without a scale, isBinary holds exactly when all truthy intensities are equal |
| IntensityResolver.NotBinaryWithScale | src/js/IntensityResolver.ts:34-37 | a scale with distinct start and end is never binary |
| HeatmapCalendar.ChooseLayout | src/js/HeatmapCalendar.ts:26 | the rolling layout when the flag is set, else the year layout of the configured year |
| HeatmapCalendar.FindDate | src/js/HeatmapCalendar.ts:38 | find gives the first box with the entry's date, or none when no box has it |
| HeatmapCalendar.FindDateSameDates | src/js/HeatmapCalendar.ts:38 | find depends only on the boxes' dates |
| HeatmapCalendar.Attach | src/js/HeatmapCalendar.ts:38-42 | attaching an entry keeps every box's date |
| HeatmapCalendar.AttachUnmatched | src/js/HeatmapCalendar.ts:37-46 | a box that no entry's date finds keeps its content |
| HeatmapCalendar.AttachLastWins | src/js/HeatmapCalendar.ts:37-46 | of several entries with one date, the box holds the last |
| HeatmapCalendar.Paint | src/js/HeatmapCalendar.ts:45 | every entry, in order, gets the colour mapEntry gives it |
| HeatmapCalendar.AttachEntry | src/js/HeatmapCalendar.ts:38-42 | the entry is put in the first box of its date, and no box changes when there is none |
| HeatmapCalendar.MatchEntry | src/js/HeatmapCalendar.ts:38-45 | one pass of the loop: attach the entry and colour it |
| HeatmapCalendar.MatchEntries | src/js/HeatmapCalendar.ts:37-46 | the loop colours every entry and attaches each, coloured, to the first box of its date, in order |
| HeatmapCalendar.Render | src/js/HeatmapCalendar.ts:24-46 | render fails exactly when there are no colour options; otherwise it gives the chosen layout's boxes with its shown entries attached and coloured over their own data range |

## Left out

- The DOM part of `render` (src/js/HeatmapCalendar.ts from line 48) and the `SettingsStore`, settings tab, plugin API and logging modules are not part of this model. The settings `render` reads are the `Settings` and `Config` values.
- `Date.now()` is the `clock` parameter. The local time-zone offset is the `tz` parameter, used only by the year filter as written.
- JavaScript numbers are exact reals or unbounded integers. Rounding and overflow are not modelled. `NaN` is modelled only as the time value of a year-less January 1st (DateUtil.TimeValue).
- Intensor.PaletteFunction: the function from a one-point finite range [c, c] is `NonFinite`, and the model makes every colour from it undefined. In JavaScript, with n colours, its slope is n / 0 = `Infinity` and its offset is -c * n / 0. For c > 0 the offset is `-Infinity`, so a negative intensity still gets the first colour. For c < 0 the offset is `Infinity`, so a positive intensity gets the last colour. Every other intensity gives `NaN` and an undefined colour, as in the model. For c = 0 the offset is `NaN`, so every intensity gives `NaN` and an undefined colour.
- Intensor.MapColor: an infinite range end gives `NonFinite` and an undefined colour. JavaScript computes `NaN` there, which also gives undefined.
- Intensor.Clamp: works on integers only, the results of `Math.ceil`.
- The `!colorFn` branch of mapEntry (src/intensity/Intensor.ts:107-110) is not modelled. Every key's function is a closure, so the branch cannot be taken.
- `DEFAULT_PALETTES` (src/intensity/Intensor.ts:19-21) is never read by the code and is not modelled.
- The `settings` field of the IntensityResolver only stores its argument and is not modelled.
- `getHowManyDaysIntoYearLocal` and `todaysDayNumberLocal` (src/model/YearLayout.ts:22-27, 69) are computed but never used, and are not modelled.
- The extra `true` argument to `BoxImpl.fromDate` in the year layout is ignored by `fromDate`.
- The `classNames` field of a box is never set and is not modelled.
- Attaching an entry writes the same object into the box whose colour is set a moment later. The model gives the box the entry already coloured, which is what the shared object holds once the loop is done.
- The entry list `calEntries` is updated in place in the source. The model returns the recoloured list as a new value.
- HeatmapCalendar.Render: requires a year whenever the calendar is not rolling. Without one the source does not terminate. `year!` only silences the type checker, `Date.UTC(undefined, 0, 1)` is `NaN`, and the loop of getStartOfWeekDate never ends (see Findings).
- HeatmapCalendar.ChooseLayout: requires a year whenever the calendar is not rolling, for the same reason.
- Layout.FilterEntries: the year layout uses the corrected year filter, YearLayout.FilterEntries. The filter as written (src/model/YearLayout.ts:49) differs from it only east of UTC. There it drops the entry dated January 1st of the year (YearLayout.FilterDropsNewYearEastOfUtc) and keeps the entry dated January 1st of the next year (YearLayout.FilterKeepsNextNewYearEastOfUtc). At UTC and west of it the two filters give the same list (YearLayout.FilterAgreesAtOrWestOfUtc).
- HeatmapCalendar.Render: the year layout's entries come from the corrected filter. East of UTC the source instead shows the entry dated January 1st of the next year, in the layout's last box, which is that day (src/model/YearLayout.ts:71-74). Its intensity then counts in the range the Intensor scales over. The entry dated January 1st of the year is not shown. At UTC and west of it the two agree (YearLayout.FilterAgreesAtOrWestOfUtc).
- IntensityResolver.IsBinary: `None` stands for both `null` and `undefined`, which `===` tells apart (src/js/IntensityResolver.ts:36). With no truthy intensities, the minimum is the configured scale start and the maximum the scale end (lines 24-25). A `null` start with an undefined end makes the source answer false, where the model answers true.
- HeatmapCalendar.Paint: assumes the entries are distinct objects. When one entry object appears twice in the list, the source recolours it on its later pass. Its `color` then holds a hex colour, which mapEntry reads as a palette name, so it gets the fallback colour '#e2e2e2' (src/js/HeatmapCalendar.ts:45; src/intensity/Intensor.ts:101, 120-123). The model colours each position from the entry as it was given.
- HeatmapCalendar.MatchEntries: assumes distinct entry objects, as HeatmapCalendar.Paint does.
- DateUtil.ParseDate: only the date-only form `YYYY-MM-DD` of an existing day is modelled. JavaScript also parses the other ISO forms (with a time, or an extended year), and some engines roll a day past the month's end, such as "2019-02-30", into the next month. The model treats all of those as an invalid date.
- DateUtil.GetNow: floors with the corrected DateUtil.TimeFloorDate, where the source calls timeFloorDate as written (src/js/DateUtil.ts:79). The two agree on every instant outside the years 0 to 99 (DateUtil.TimeFloorAgrees).
- DateUtil.IsToday: uses the corrected floor through getNow; it differs from the source only for a clock in the years 0 to 99.
- DateUtil.GetEndOfWeekDate: uses the corrected floor (src/js/DateUtil.ts:96); it differs from the source only in the years 0 to 99. It requires the end of the week to be a week day 0 to 6: for any other number the source loops for ever. Its only caller passes the settings store's week end, the constant 0 (src/js/SettingsStore.ts:30-32).
- DateUtil.GetStartOfWeekDate: uses the corrected floor (src/js/DateUtil.ts:109); it differs from the source only in the years 0 to 99. For the year layout the two agree on every year (YearLayout.FirstDayFloorExact). It requires the start of the week to be a week day 0 to 6: for any other number the source loops for ever. Its callers pass the settings store's week start, the constant 1 (src/js/SettingsStore.ts:26-28).
- RollingLayout.FirstDay: builds on the corrected floor; it differs from the source only when the instant 365 days before the clock lies in the years 0 to 99.
- RollingLayout.LastDay: builds on the corrected floor; it differs from the source only for a clock in the years 0 to 99.
- RollingLayout.RollingStart: builds on the corrected floor; it differs from the source only when the instant 365 days before the clock lies in the years 0 to 99.
- RollingLayout.RollingEnd: builds on the corrected floor; it differs from the source only for a clock in the years 0 to 99.
- RollingLayout.GetRollingStartDate: builds on the corrected floor; it differs from the source only when the instant 365 days before the clock lies in the years 0 to 99.
- RollingLayout.GetRollingEndDate: builds on the corrected floor; it differs from the source only for a clock in the years 0 to 99.
- RollingLayout.RollingBoxesShape: states the number of boxes only. Their dates are given by Boxes.DayBoxesLabels over the window, and their distinctness by RollingLayout.RollingBoxesDistinct.
- RollingLayout.BoxesBetween: takes the box constructor as a parameter, so that the loop's proof stays small. `GenerateBoxes` passes `Boxes.FromDate`.
- Layout.DayOfWeekLabelsRotated: states the per-index labels only for a first day from -7 to 7. Outside that range `slice` clamps the index, and the model proves only that the result is a permutation.
- The thrown messages are modelled as an `Error` datatype with a message function, not as JavaScript `Error` objects.

## Findings

| source | as written | input that shows it | evidently intended | confidence | as-written member | corrected member |
|---|---|---|---|---|---|---|
| src/js/DateUtil.ts:71-73 | timeFloorDate rebuilds the date with `Date.UTC`, which reads the years 0 to 99 as 1900 to 1999 | the instant 0050-01-01T00:00Z is floored to 1950-01-01 | midnight of the same UTC day, for every year | not executed | DateUtil.TimeFloorAsWrittenYear50 | DateUtil.TimeFloorDate |
| src/model/YearLayout.ts:55-56 | a calendar that is not rolling and has no year builds January 1st as `Date.UTC(undefined, 0, 1)`, which is NaN, and getStartOfWeekDate (src/js/DateUtil.ts:108-115) then steps back from NaN for ever | a render with `rolling` unset and no `year` | a calendar that is not rolling names its year, and render ends | not executed | YearLayout.YearlessLeadNeverStops | HeatmapCalendar.Render |
| src/model/YearLayout.ts:49 | the year filter appends "T00:00", so the date is read as local midnight, then takes the UTC year; east of UTC every date moves back a day | one hour east of UTC, the entry "2019-01-01" is dropped from the 2019 layout and the entry "2020-01-01" is kept, in the last box | keep the entries whose written date lies in the year | not executed | YearLayout.FilterDropsNewYearExample, YearLayout.FilterKeepsNextNewYearExample | YearLayout.FilterEntries |
