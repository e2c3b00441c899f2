# Day-view layout of the schedule template tags, in Dafny

This project models the computational core of the `scheduletags` template
library of the schedule calendar application:

- `_cook_occurrences`, the day-view layout of occurrences. In three passes over
  the occurrence objects it writes onto each one:
  - a column (`level`), chosen greedily by first fit;
  - a column count (`max`): first the raw number of overlapping occurrences,
    then, in list order and in place, the minimum current `max` over the
    occurrences it overlaps;
  - a pixel box (`width`, `left`, `top`, `height`) and a style class.
- `_cook_slots`, which cuts the period into slots of `increment` minutes.
- `querystring_for_date`, which builds `?year=..&month=..&...` from the first
  `num` date fields.
- The `get_calendar` and `get_or_create_calendar` tag parsers, which turn the
  tag's tokens into the record they name or fail.

Occurrences are a `class` whose layout fields the methods update in place.
The layout is proved against state-free specification functions:

- `Columns.IsFirstFit` is the column assignment. It is unique, and, when
  every occurrence ends at or after its start, it never puts two
  overlapping occurrences in one column.
- `ColumnCounts.FinalColumns` is the sequential minimum. Every value is at
  least 1, and at most the raw count for an occurrence of positive length;
  each is the minimum over the occurrence's overlap group of the values seen
  at its turn.
- `CookOccurrences.BoxFor` is the pixel box. It is clamped to the table's
  bottom, and boxes sized for the same column count and in different columns
  sit side by side. Boxes sized for different column counts can collide
  (`Scenarios.StaggeredDayBoxesCollide`).
- `CookOccurrences.FirstFailure` is the error the last pass stops with: `min`
  of an empty list, or division by a zero period.

Slots are values, specified by `CookSlots.IsSlotLayout`. The query string
and the parsers are pure functions. Each has a partner: a round trip for
the parsers, and a field-by-field description of the query string.

Conventions:

- Time is integer seconds.
- `timedelta.seconds` is the duration modulo 86400 (`Timing.DeltaSeconds`):
  it drops whole days, so a period of exactly one day has 0 seconds.
- The source is Python 2, so `int / int` is floor division. The divisors are
  always positive, where floor division agrees with Dafny's `/`.
- `int(height * (float(a) / b))` becomes the truncating quotient
  `TruncDiv(height * a, b)`.

The worked layouts in `Scenarios` show one consequence of the column rule
as written. The column count of an occurrence can be at most its column
index, as in `Scenarios.CrowdedMorning`: three occurrences pushed into
three columns are still each sized for two. The third box then starts at
the right edge of the table, or one pixel left of it when the width is odd
(`Scenarios.CrowdedMorningOverflow`). This is what the code computes, so
it is stated as a property of the model, not corrected.

Edge cases of the code:

- `querystring_for_date` slices with Python semantics: a negative `num`
  counts from the end, so `num = -2` keeps four fields.
- `get_calendar` with no tokens at all fails with an index error, raised
  while it formats its syntax-error message, not with the syntax error.
- `get_or_create_calendar` looks up `by`, then `named`, then `as`. Each
  keyword in last position is an index error (the token after it is read),
  an empty name is an index error (`name[0]`), and a one-character name is
  stripped to the empty string.

## Model

| member | source | states |
|---|---|---|
| Timing.DeltaSeconds | schedule/templatetags/scheduletags.py:219-220 | `timedelta.seconds`: the result lies in [0, 86400), differs from the duration by whole days, and is the duration itself when that is under a day |
| Timing.TruncDiv | schedule/templatetags/scheduletags.py:219-220 | `int()` of a float quotient: truncation toward zero, bounded by the exact quotient on both sides, for either sign of the dividend |
| Timing.OverlapsSymmetric | schedule/templatetags/scheduletags.py:212 | the overlap test `not(n.end<=o.start or n.start>=o.end)` is symmetric, and a span overlaps itself exactly when it has positive length |
| Timing.Scale | schedule/templatetags/scheduletags.py:219-220 | `int(height * (float(secs) / total))` as the truncating quotient of `height * secs` by `total`; its bounds are `Timing.ScaleWithin` |
| Timing.Overlaps | schedule/templatetags/scheduletags.py:212-215 | the overlap test `not(n.end <= o.start or n.start >= o.end)` of both comprehensions; its symmetry is `Timing.OverlapsSymmetric` |
| Timing.ScaleWithin | schedule/templatetags/scheduletags.py:219-220 | scaling a share `secs <= total` of the period onto a non-negative table height stays within [0, height] |
| Columns.LastIn | schedule/templatetags/scheduletags.py:197-207 | the latest occupant of a column (`last[k]`): it holds that column and nothing after it does |
| Columns.ColumnCount | schedule/templatetags/scheduletags.py:205-208 | the number of columns opened: every assigned column is below it |
| Columns.FirstFitAt | schedule/templatetags/scheduletags.py:196-208 | occurrence `j` got column 0 when nothing was placed, else the lowest column whose latest occupant ends at or before its start, or one past the highest column in use |
| Columns.IsFirstFit | schedule/templatetags/scheduletags.py:191-208 | the whole first-fit assignment, every occurrence in list order; `CookOccurrences.AssignColumns` produces it and `Columns.FirstFitUnique` makes it unique |
| Columns.FirstFitPrefix | schedule/templatetags/scheduletags.py:193-208 | the assignment of a prefix of the list is the first-fit assignment of that prefix: later occurrences never move earlier ones |
| Columns.ColumnsContiguous | schedule/templatetags/scheduletags.py:196-208 | all levels are non-negative and every column below the column count has an occupant: the keys of `last` are exactly 0..m |
| Columns.FirstGetsColumnZero | schedule/templatetags/scheduletags.py:196-198 | the first occurrence gets column 0 |
| Columns.SameColumnFollows | schedule/templatetags/scheduletags.py:200-204 | within a column each new occupant starts at or after the previous occupant's end |
| Columns.SameColumnDisjoint | schedule/templatetags/scheduletags.py:200-208 | when every occurrence ends at or after its start, two occurrences in the same column never overlap, whatever the input order |
| Columns.FirstFitUnique | schedule/templatetags/scheduletags.py:191-208 | the first-fit assignment of a list is unique |
| Columns.FirstFitExtend | schedule/templatetags/scheduletags.py:193-208 | a first-fit choice for the next occurrence extends a first-fit prefix |
| Columns.ChoiceIsFirstFit | schedule/templatetags/scheduletags.py:200-208 | the lowest column whose latest occupant has ended, or a new column when every column is busy, is the first-fit choice |
| Columns.AppendLevel | schedule/templatetags/scheduletags.py:202-208 | after an occurrence takes column `c`, it is the latest occupant of `c`, other columns keep theirs, and the column count grows only when `c` is new |
| ColumnCounts.RawCount | schedule/templatetags/scheduletags.py:212 | the raw overlap count is at most the number of occurrences |
| ColumnCounts.RawCountIsCardinality | schedule/templatetags/scheduletags.py:210-212 | the raw count is the number of positions whose occurrence overlaps `o` |
| ColumnCounts.OverlapCounted | schedule/templatetags/scheduletags.py:212 | an occurrence that overlaps something has a positive raw count |
| ColumnCounts.UncountedIsEmptyInstant | schedule/templatetags/scheduletags.py:212-215 | an occurrence with raw count 0 is zero-length (or reversed) and overlaps nothing, so `min` gets an empty list for it |
| ColumnCounts.RawCounts | schedule/templatetags/scheduletags.py:210-212 | pass 2 gives every occurrence its raw count |
| ColumnCounts.OverlapValues | schedule/templatetags/scheduletags.py:215 | the list given to `min` has one entry per overlapping occurrence |
| ColumnCounts.OverlapValueIncluded | schedule/templatetags/scheduletags.py:215 | the current `max` of every overlapping occurrence is in the list given to `min` |
| ColumnCounts.OverlapValueSource | schedule/templatetags/scheduletags.py:215 | every value in that list is the current `max` of some overlapping occurrence |
| ColumnCounts.MinOf | schedule/templatetags/scheduletags.py:215 | `min` of a non-empty list is one of its elements |
| ColumnCounts.MinOfLowest | schedule/templatetags/scheduletags.py:215 | `min` of a list is at most each of its elements |
| ColumnCounts.CoveredUpToNext | schedule/templatetags/scheduletags.py:213-215 | an occurrence with a positive raw count extends the prefix for which `min` is defined |
| ColumnCounts.ColumnsAfter | schedule/templatetags/scheduletags.py:213-215 | the `max` fields after the first `k` iterations of the in-place minimum pass, starting from the raw counts |
| ColumnCounts.Lowered | schedule/templatetags/scheduletags.py:215 | the value iteration `k` writes: `min` over the current `max` of the occurrences overlapping occurrence `k-1`; characterised by `ColumnCounts.LoweredIsMinimum` |
| ColumnCounts.FinalColumns | schedule/templatetags/scheduletags.py:213-215 | the `max` fields after the whole pass; characterised by `ColumnCounts.SequentialMinimum` and bounded by `ColumnCounts.FinalColumnsBounds` |
| ColumnCounts.LoweredIsMinimum | schedule/templatetags/scheduletags.py:213-215 | the value given to occurrence `k-1` is at most the current `max` of every occurrence it overlaps and equal to one of them |
| ColumnCounts.ColumnsAfterPending | schedule/templatetags/scheduletags.py:213-215 | occurrences the pass has not reached still hold their raw count |
| ColumnCounts.ColumnsAfterSettled | schedule/templatetags/scheduletags.py:213-215 | once the pass has passed an occurrence its `max` never changes again |
| ColumnCounts.ColumnsAfterStep | schedule/templatetags/scheduletags.py:213-215 | one step of the pass changes only the current occurrence's `max` |
| ColumnCounts.ColumnsAfterPositive | schedule/templatetags/scheduletags.py:213-215 | at every point of the pass, each occurrence with a positive raw count has `max >= 1` |
| ColumnCounts.ColumnsSeenAt | schedule/templatetags/scheduletags.py:213-215 | when occurrence `i` is reached, earlier occurrences hold their final value and later ones (and itself) their raw count |
| ColumnCounts.SequentialMinimum | schedule/templatetags/scheduletags.py:213-215 | the final `max` of `i` is the minimum, over the occurrences overlapping it, of the final `max` of earlier ones and the raw count of later ones |
| ColumnCounts.FinalColumnsBounds | schedule/templatetags/scheduletags.py:213-216 | every final `max` is at least 1, so `width / o.max` never divides by zero, and for a positive-length occurrence it is at most its raw count |
| CookOccurrences.Occurrence.constructor | schedule/templatetags/scheduletags.py:193-195 | an occurrence carries its start and end |
| CookOccurrences.Spans | schedule/templatetags/scheduletags.py:193 | the time spans of the occurrences, position by position |
| CookOccurrences.Maxes | schedule/templatetags/scheduletags.py:212-215 | the current `max` fields, position by position |
| CookOccurrences.Levels | schedule/templatetags/scheduletags.py:195-208 | the current `level` fields, position by position; the method contracts state the first-fit assignment through it, as they state the column counts through `CookOccurrences.Maxes` |
| CookOccurrences.BoxFor | schedule/templatetags/scheduletags.py:216-221 | the clamped box never reaches below the table's bottom |
| CookOccurrences.BoxWithinWidth | schedule/templatetags/scheduletags.py:216-218 | for `0 <= level < max` the box, gutter included, lies within the column's width |
| CookOccurrences.BoxesSideBySide | schedule/templatetags/scheduletags.py:216-218 | boxes sized for the same column count and placed in different columns do not overlap horizontally |
| CookOccurrences.BoxWithinHeight | schedule/templatetags/scheduletags.py:219-221 | an occurrence inside a period shorter than a day starts and ends inside a table of non-negative height |
| CookOccurrences.FirstFailure | schedule/templatetags/scheduletags.py:213-220 | the exception pass 3 raises from position `from` on: `min([])` at the first occurrence that overlaps nothing, or division by zero at the first occurrence that reaches line 219 with a zero period; characterised by `CookOccurrences.FirstFailureCases` |
| CookOccurrences.FirstFailureCases | schedule/templatetags/scheduletags.py:213-220 | the layout succeeds exactly when every occurrence overlaps something and (for a non-empty list) the period's seconds are non-zero; it fails on the period exactly when the first occurrence overlaps something and the seconds are 0; otherwise it fails at the first occurrence that overlaps nothing |
| CookOccurrences.Placed | schedule/templatetags/scheduletags.py:216-223 | the state lines 216-223 leave on one occurrence: `max` at least 1, a period with non-zero seconds, `width`, `left`, `top` and `height` equal to `BoxFor` for its level and `max`, and `cls` the class `classify` gives; `PlaceOne`, `SizeOne`, `SizeBoxes` and `Cook` state their results through it |
| CookOccurrences.LastOccupants | schedule/templatetags/scheduletags.py:191-208 | what the dict `last` means after a prefix of pass 1: every level so far is non-negative, its keys are exactly the columns 0..m-1 in use, and each maps to the position of that column's latest occupant; `FirstFreeColumn`, `LastOccupantsAppend` and `TakeColumn` rely on it |
| CookOccurrences.FirstFreeColumn | schedule/templatetags/scheduletags.py:200-206 | the scan of `sorted(last.keys())`: either a column whose latest occupant has ended, or one past the largest key, and every column before it is busy |
| CookOccurrences.LastOccupantsAppend | schedule/templatetags/scheduletags.py:202-208 | recording the new occupant keeps `last` equal to the columns in use and their latest occupants |
| CookOccurrences.TakeColumn | schedule/templatetags/scheduletags.py:194-208 | one step of pass 1: the occurrence takes the first-fit column, `max` is reset, and `last` stays in step |
| CookOccurrences.AssignColumns | schedule/templatetags/scheduletags.py:191-208 | pass 1 leaves the first-fit assignment in the `level` fields and every `max` at 0 |
| CookOccurrences.CountOverlaps | schedule/templatetags/scheduletags.py:210-212 | pass 2 sets every `max` to the raw overlap count and leaves the levels alone |
| CookOccurrences.PlaceOne | schedule/templatetags/scheduletags.py:215-223 | the box of one occurrence is computed exactly when the period's seconds are non-zero, and then it is `BoxFor` with the class from `classify` |
| CookOccurrences.SizeOne | schedule/templatetags/scheduletags.py:213-223 | one step of pass 3: it fails with `min([])` when the occurrence overlaps nothing, with division by zero on a zero period, and otherwise advances the sequential minimum and places the occurrence |
| CookOccurrences.SizeBoxes | schedule/templatetags/scheduletags.py:213-223 | pass 3 fails exactly as `FirstFailure` says; on success every `max` is its final sequential minimum and every occurrence is placed |
| CookOccurrences.Cook | schedule/templatetags/scheduletags.py:179-224 | the whole layout: levels are the first-fit assignment; the outcome is `FirstFailure`; on success the column counts are `FinalColumns` and every box and class is in place |
| CookSlots.IncrementSeconds | schedule/templatetags/scheduletags.py:237 | the slot length `timedelta(minutes=increment)` in seconds |
| CookSlots.IsSlotLayout | schedule/templatetags/scheduletags.py:237-246 | the slot list: `SlotCount` slots, slot `i` spanning `[start + i*inc, start + (i+1)*inc)`, all `height / num` pixels high, slot `i` drawn at `i` heights down |
| CookSlots.SlotCount | schedule/templatetags/scheduletags.py:237-238 | the number of slots is the floor of period seconds over increment seconds |
| CookSlots.CookSlots | schedule/templatetags/scheduletags.py:237-247 | fails exactly when the increment's seconds are 0, and otherwise returns the slot layout |
| CookSlots.SlotsContiguous | schedule/templatetags/scheduletags.py:241-246 | each slot ends where the next begins |
| CookSlots.SlotsOrdered | schedule/templatetags/scheduletags.py:241-246 | for a positive increment the slots are non-empty, chronological and pairwise non-overlapping |
| CookSlots.SlotsWithinTable | schedule/templatetags/scheduletags.py:243-244 | every slot is drawn inside the table, directly under the previous one, and `num * h <= height` |
| CookSlots.SlotsCoverPeriod | schedule/templatetags/scheduletags.py:237-246 | for a period and an increment both under a day, the slots start at the period's start and stop within one increment of its end |
| CookSlots.FullDayHasNoSlots | schedule/templatetags/scheduletags.py:238 | a period of exactly one day has 0 seconds and gets no slots |
| CookSlots.TwoHoursInHalfHours | schedule/templatetags/scheduletags.py:237-246 | a two-hour period in 30-minute slots on a 400-pixel table gives four slots 100 pixels high |
| QueryString.FieldValues | schedule/templatetags/scheduletags.py:151 | one value per query key |
| QueryString.FormatInt | schedule/templatetags/scheduletags.py:152 | `%d` of an integer: optional `-` and the decimal digits; read back by `QueryString.FormatIntRoundTrip` |
| QueryString.DigitChar | schedule/templatetags/scheduletags.py:152 | a digit is written as a decimal digit character |
| QueryString.DigitsRoundTrip | schedule/templatetags/scheduletags.py:152 | reading back the decimal digits of `n` gives `n` |
| QueryString.DigitsLead | schedule/templatetags/scheduletags.py:152 | the first character of the digits is a decimal digit |
| QueryString.FormatIntRoundTrip | schedule/templatetags/scheduletags.py:152 | reading back `%d` of `v` gives `v`, negative values included |
| QueryString.SliceCount | schedule/templatetags/scheduletags.py:152 | `[:num]` keeps `min(num, 6)` items for `num >= 0` and `max(6 + num, 0)` for negative `num` |
| QueryString.Interpolate | schedule/templatetags/scheduletags.py:152 | the `%` operator on a template and an argument tuple: `%d` takes the next argument, other text is copied; too few or too many arguments, or any other conversion, fail |
| QueryString.Join | schedule/templatetags/scheduletags.py:152 | `'&'.join(parts)`: the parts with the separator between neighbours |
| QueryString.InterpolateLiteral | schedule/templatetags/scheduletags.py:152 | `%` copies text without `%` unchanged |
| QueryString.InterpolateField | schedule/templatetags/scheduletags.py:152 | `%` replaces `key=%d` with `key=` and the decimal value |
| QueryString.InterpolateJoin | schedule/templatetags/scheduletags.py:150-152 | substituting the values into the joined `key=%d` templates gives the joined `key=value` pairs |
| QueryString.PairsAt | schedule/templatetags/scheduletags.py:150-152 | pair `i` is key `i`, `=`, and value `i` in decimal |
| QueryString.PrefixOfParts | schedule/templatetags/scheduletags.py:150-152 | slicing the templates (or the pairs) is the same as building them from the sliced keys and values |
| QueryString.Templates | schedule/templatetags/scheduletags.py:150 | the `qs_parts` list: one `key=%d` template per key, in key order |
| QueryString.QueryStringOf | schedule/templatetags/scheduletags.py:149-152 | `'?' + '&'.join(qs_parts[:n]) % values[:n]` with the keys and values as parameters; a failed `%` would leave just `?`, but `QueryString.QueryStringOfParts` shows the `%` succeeds whenever no key holds `%`, so for the six keys of `QueryStringForDate` that fallback is never reached |
| QueryString.QueryStringForDate | schedule/templatetags/scheduletags.py:148-153 | `querystring_for_date(date, num)` itself: `?` plus the joined templates sliced to `num`, formatted with the date fields sliced to `num`; its result is given by `QueryString.QueryStringParts` |
| QueryString.QueryStringOfParts | schedule/templatetags/scheduletags.py:148-153 | the query string is `?` followed by the first `n` pairs joined by `&` |
| QueryString.QueryStringParts | schedule/templatetags/scheduletags.py:148-153 | for a date, the query string is `?` followed by the first `SliceCount(num)` of its `key=value` pairs joined by `&` |
| QueryString.QueryStringEmpty | schedule/templatetags/scheduletags.py:148-153 | with `num = 0` the query string is just `?` |
| QueryString.QueryStringAllFields | schedule/templatetags/scheduletags.py:148-153 | by default the query string lists year, month, day, hour, minute and second, in that order |
| CalendarTags.ParseGetCalendar | schedule/templatetags/scheduletags.py:96-105 | accepts exactly 4 tokens (no distinction) or 5 tokens (distinction = token 2); the object is token 1 and the variable the last token; any other count is a syntax error, except no tokens at all, which is an index error |
| CalendarTags.GetCalendarRoundTrip | schedule/templatetags/scheduletags.py:96-105 | parsing the tokens of a `get_calendar` tag gives back the record they name |
| CalendarTags.IndexOf | schedule/templatetags/scheduletags.py:124 | `list.index`: the first position holding the token |
| CalendarTags.AfterKeyword | schedule/templatetags/scheduletags.py:123-137 | the token after the first occurrence of a keyword: none when the keyword is absent, an index error when it is last |
| CalendarTags.StripQuotes | schedule/templatetags/scheduletags.py:131-132 | a name whose first and last characters agree loses them (a one-character name becomes empty); an empty name is an index error |
| CalendarTags.ParseGetOrCreateCalendar | schedule/templatetags/scheduletags.py:118-142 | on success the object is token 1, the variable follows `as`, the distinction follows `by` exactly when `by` is present, and the name follows `named` (stripped) exactly when `named` is present; one or two tokens are a syntax error and no tokens an index error |
| CalendarTags.GetOrCreateCalendarRoundTrip | schedule/templatetags/scheduletags.py:118-142 | parsing the tokens of a `get_or_create_calendar` tag gives back the record they name, with the name quoted, when no word of the tag is a keyword |
| CalendarTags.QuotedIsNoKeyword | schedule/templatetags/scheduletags.py:128-132 | a quoted name is never one of the keywords |
| CalendarTags.GetOrCreateCalendarFailures | schedule/templatetags/scheduletags.py:120-141 | with more than two tokens, the parse fails exactly when `by` or `named` is last, the name is empty, or `as` is missing or last; it is the syntax error exactly when `as` is missing and none of the others holds, and an index error exactly in the other cases |
| Scenarios.MorningMeetingsFirstFit | schedule/templatetags/scheduletags.py:191-208 | 9:00-10:00, 9:30-10:30 and 10:00-11:00 get columns 0, 1, 0 under first fit |
| Scenarios.MorningMeetingsLevels | schedule/templatetags/scheduletags.py:191-208 | and that is the only first-fit assignment of those meetings |
| Scenarios.MorningMeetingsRawCounts | schedule/templatetags/scheduletags.py:210-212 | their raw counts are 2, 3 and 2 |
| Scenarios.MorningMeetingsColumns | schedule/templatetags/scheduletags.py:213-215 | all three are sized for two columns |
| Scenarios.CrowdedMorningFirstFit | schedule/templatetags/scheduletags.py:191-208 | a long occurrence, two short ones beside it and one after them get columns 0, 1, 2, 1 |
| Scenarios.CrowdedMorningLevels | schedule/templatetags/scheduletags.py:191-208 | and that is the only first-fit assignment of them |
| Scenarios.CrowdedMorningRawCounts | schedule/templatetags/scheduletags.py:210-212 | their raw counts are 4, 3, 3 and 2 |
| Scenarios.CrowdedMorningColumns | schedule/templatetags/scheduletags.py:213-215 | every one of them is sized for two columns |
| Scenarios.CrowdedMorningOverflow | schedule/templatetags/scheduletags.py:213-218 | the third occurrence's column is not below its column count, so its box starts at (or one pixel left of) the table's right edge |
| Scenarios.StaggeredDayFirstFit | schedule/templatetags/scheduletags.py:191-208 | spans [0,10), [0,20), [10,30), [25,25) get columns 0, 1, 0, 1 under first fit |
| Scenarios.StaggeredDayLevels | schedule/templatetags/scheduletags.py:191-208 | and that is the only first-fit assignment of them |
| Scenarios.StaggeredDayRawCounts | schedule/templatetags/scheduletags.py:210-212 | their raw counts are 2, 3, 3 and 1 |
| Scenarios.StaggeredDayColumns | schedule/templatetags/scheduletags.py:213-215 | the sequential minimum sizes them for 2, 2, 1 and 1 columns: the instant's count of 1 lowers the third occurrence's |
| Scenarios.StaggeredDayBoxesCollide | schedule/templatetags/scheduletags.py:213-218 | the second and third occurrences overlap in time and sit in different columns, yet in a 100-pixel column their boxes span pixels 50-98 and 0-98 |

## Left out

- Django template registration and the context the tags build are not modelled. This covers the inclusion tags `month_table`, `day_cell`, `daily_table`, `title_and_options` and `prevnext`, which only assemble dictionaries.
- `prev_url`, `next_url` and `create_event_url` are not modelled. They call URL reversal and read settings, which are outside this code.
- The `render` methods of `CalendarNode` and `CreateCalendarNode` are not modelled because they query the database. The parsers return the record a node would hold.
- The period's `get_time_slot` is not modelled. A slot is represented by the bounds it is asked for, plus its pixel position.
- `classify_occurrence` is a parameter (`classify`), and the class it yields is an opaque string. The classification is taken as a total function of the occurrence's span: the source passes the occurrence object and reads `o_data['class']`, which raises when the classification has no `'class'` entry, and the model neither depends on the rest of the object nor has that failure. `CookOccurrences.FirstFailureCases` (success exactly when no `min` is empty and the period's seconds are non-zero) rests on this.
- Float arithmetic is not modelled. `int(height * (float(a) / b))` is the exact truncating quotient `height * a` over `b`. The float result can differ by one pixel where rounding bites.
- Real dates are not modelled. Instants are integer seconds, and microseconds and time zones are left out.
- CookOccurrences.Cook: the list is required to hold distinct objects. Aliasing of one object at two positions is not modelled.
- CookOccurrences.SizeBoxes: after an error the contract describes no occurrence's `max`, box or class, only the levels. In the source the earlier occurrences are then placed, the later ones still hold their raw counts, and the failing one already has `max`, `width` and `left` written when the division fails; the raised exception makes this state unobservable to the caller.
- CookOccurrences.Cook: likewise, after an error only the levels and the kind of error are described.
- CalendarTags.ParseGetCalendar: errors carry no message text, only their kind (syntax error or index error).
- Tokenisation by `split_contents` is not modelled: the parsers start from the list of tokens.
- QueryString.Interpolate: only the `%d` conversion is modelled, the only one the templates use.
