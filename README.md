# Tasklist core in Dafny

A model of the core of the Kotlin to-do list manager `Tasklist`. That core is
`src/main/kotlin/TaskList.kt`, and the model covers five parts of it:

- **The date/time validator.** `toDateTimeOrNull` splits a date line on `-`
  and a time line on `:`, reads every part with `toInt()` and builds a
  `LocalDateTime`. Any exception becomes `null`. `setDate` and `setTime` keep
  the canonical `yyyy-mm-dd` and `hh:mm` strings.
- **The `Task` entity.** It has four mutable fields. `dateLD` and the derived
  urgency `state` come from the due date. `setPriority`, `setDate`, `setTime`,
  `setText` and `addLn` set fields, `build` and `edit` use them, and
  `isEmpty` is the blank-task test.
- **The symbol lookups.** `findPriority` and `findField` search the
  `Priority` and `Field` enumerations.
- **The ordered collection `TaskList`.** It has `add`, `delete`, `edit`,
  `isEmpty`, `load`, and the task-number check of `selectIndex`.
- **The fixed-width table renderer.** `textAdoption` cuts a body into
  44-character cells. `toString()` lays out the header, a main row,
  continuation rows and a separator for each task.

Modules follow those parts:

- `Calendar` (calendar.dfy) holds the validator, the canonical strings and
  the day numbers behind `daysUntil`.
- `Symbols` (symbols.dfy) holds the enumerations and the lookups.
- `Tasks` (task.dfy) holds the `Task` class.
- `Layout` (layout.dfy) holds the table as a function of the rows, and
  `chunked` with the padding `textAdoption` adds.
- `TaskLists` (tasklist.dfy) holds the `TaskList` class and its rendering
  methods.
- `Numbers` (numbers.dfy) and `Strings` (strings.dfy) model the Kotlin
  library calls the core relies on: `toInt()`, `split`, `lines()`, `trim()`,
  `uppercase()`/`lowercase()`, `substringBefore`/`substringAfter`, `repeat`,
  and the 32-bit wrap-around of `Int`.
- `Wrappers` (wrappers.dfy) holds the `Option` type that stands for a Kotlin
  nullable result.

Three parts of the source become parameters:

- The clock becomes a `today` parameter. It is a day number counted like
  `LocalDate.toEpochDay`, with 1970-01-01 as day 0 (`Calendar.EpochOrigin`).
- Each console prompt becomes its acceptance test applied to the line it is
  given.
- The JSON decoding in `load` becomes the value it produced.

Behaviour of the code that is easy to miss:

- A priority line is upper-cased and looked up among all five symbols, so
  `null` or `NULL` is accepted and gives `Priority.NULL`.
- Every `-`/`:`-separated part must parse as an `Int`. Extra trailing parts
  are ignored when they are numbers; `2024-01-05-x` is rejected.
- A 46-character line takes two cells: 44 characters, then the 2 left over.
  With a second line `extra`, the task spans three display lines
  (`Layout.TwoLineBody`).
- After a `task` edit answered with a blank line, the text is empty. Nothing
  checks it again, and `textAdoption` then indexes position -1
  (`TaskLists.BlankEditNotShowable`).

## Model

| member | source | states |
|---|---|---|
| `Calendar.ToDateTimeOrNull` | src/main/kotlin/TaskList.kt:236-245 | a date-time comes back exactly when both the date half and the time half are accepted, and it holds the parsed date and time; every failure is `None`, never an exception |
| `Calendar.ParseAllMeaning` | src/main/kotlin/TaskList.kt:238-239 | mapping `toInt()` over the parts succeeds exactly when every part is an `Int`, and then gives their values in order |
| `Calendar.ParseDate` | src/main/kotlin/TaskList.kt:238-240 | the date half, `split("-")` mapped with `toInt()` into `LocalDate`: whatever it accepts is a valid calendar date with a non-negative year |
| `Calendar.ParseTime` | src/main/kotlin/TaskList.kt:239-240 | the time half, `split(":")` mapped with `toInt()`: whatever it accepts is a valid hour and minute |
| `Calendar.ParseDateAccepts` | src/main/kotlin/TaskList.kt:238-240 | a date string is accepted iff it has at least three `-`-parts, all parse as `Int`, and the first three form a valid calendar date (month 1-12, day within the month, leap years, `LocalDate` year range); further parts are ignored; an accepted year is never negative |
| `Calendar.ParseTimeAccepts` | src/main/kotlin/TaskList.kt:239-240 | a time string is accepted iff it has at least two `:`-parts, all parse as `Int`, and the first two are an hour 0-23 and a minute 0-59 |
| `Calendar.DefaultTimeValid` | src/main/kotlin/TaskList.kt:236 | the placeholder time `00:00` is valid, so checking a date alone never fails because of the time half |
| `Calendar.DefaultDateValid` | src/main/kotlin/TaskList.kt:236 | the placeholder date `2000-01-01` is valid, so checking a time alone never fails because of the date half |
| `Calendar.AcceptDate` | src/main/kotlin/TaskList.kt:109-118 | `setDate` accepts a line iff its date half is accepted, and then stores the canonical `LocalDate` string of that date |
| `Calendar.AcceptTime` | src/main/kotlin/TaskList.kt:119-128 | `setTime` accepts a line iff its time half is accepted, and then stores the canonical `hh:mm` string |
| `Calendar.DateTimeSplits` | src/main/kotlin/TaskList.kt:114-124 | the text before `T` in the rendered date-time is the date string, and the text after it is the time string |
| `Calendar.DateStringRoundTrip` | src/main/kotlin/TaskList.kt:109-118 | every valid date with a non-negative year is read back from its canonical string; a 4-digit year gives a 10-character `yyyy-mm-dd` |
| `Calendar.TimeStringRoundTrip` | src/main/kotlin/TaskList.kt:119-128 | every valid time is read back from its canonical 5-character `hh:mm` string |
| `Calendar.AcceptDateCanonical` | src/main/kotlin/TaskList.kt:109-118 | checking a stored date string again accepts it and stores the very same string |
| `Calendar.AcceptTimeCanonical` | src/main/kotlin/TaskList.kt:119-128 | checking a stored time string again accepts it and stores the very same string |
| `Calendar.AcceptDateComplete` | src/main/kotlin/TaskList.kt:109-118 | every valid calendar date with a non-negative year can be entered and is stored in its canonical form |
| `Calendar.EpochDayOrder` | src/main/kotlin/TaskList.kt:76 | day numbers follow the calendar order, and two dates have the same day number iff they are equal |
| `Calendar.DaysUntil` | src/main/kotlin/TaskList.kt:76 | `daysUntil` is positive iff the due date comes later in the calendar, negative iff it comes earlier, and zero iff it is the same date |
| `Calendar.EpochOrigin` | src/main/kotlin/TaskList.kt:76 | the day count behind `daysUntil` puts 1970-01-01 at day 0, as `toEpochDay` does |
| `Calendar.YearStep` | src/main/kotlin/TaskList.kt:76 | consecutive years' day numbers differ by that year's length, 366 in a leap year and 365 otherwise |
| `Numbers.ParseInt` | src/main/kotlin/TaskList.kt:238-239 | `toInt()` accepts only an optional sign followed by ASCII digits, with a value in the `Int` range |
| `Numbers.ParseDigits` | src/main/kotlin/TaskList.kt:238-239 | a non-empty string of ASCII digits whose value fits in an `Int` reads as that value |
| `Numbers.ParsePlusDigits` | src/main/kotlin/TaskList.kt:238-239 | the same digits after a `+` read as the same value |
| `Numbers.ParseNatToString` | src/main/kotlin/TaskList.kt:190 | the decimal form of a number up to `Int.MAX_VALUE` reads back as that number, with or without leading zeros |
| `Numbers.Wrap32` | src/main/kotlin/TaskList.kt:190 | `toInt() - 1` is computed in 32-bit `Int` arithmetic: the result lies in the `Int` range, equals the exact value modulo 2^32, and is the exact value when that fits |
| `Strings.Split` | src/main/kotlin/TaskList.kt:238-239 | `split` gives at least one part, and no part holds the separator |
| `Strings.Lines` | src/main/kotlin/TaskList.kt:198 | `lines()` gives at least one line, and no line holds a line break |
| `Strings.TrimEnds` | src/main/kotlin/TaskList.kt:133 | a trimmed line starts and ends with non-whitespace, and is empty exactly when the line was blank |
| `Strings.TrimSlice` | src/main/kotlin/TaskList.kt:133 | a trimmed line is a slice of the line, with only whitespace cut before and after it |
| `Strings.LinesOfJoin` | src/main/kotlin/TaskList.kt:198 | `lines()` gives back the break-free lines that were joined with newlines |
| `Symbols.FindPriority` | src/main/kotlin/TaskList.kt:55-60 | returns `p` iff `p`'s symbol equals the input exactly (so `"NULL"` gives `NULL`), and nothing when no symbol matches |
| `Symbols.FindField` | src/main/kotlin/TaskList.kt:49-54 | returns `f` iff `f`'s symbol (`priority`, `date`, `time` or `task`) equals the input exactly, and nothing when none does |
| `Symbols.Urgency` | src/main/kotlin/TaskList.kt:77-81 | the `when`: `InTime` iff more than zero days are left, `Today` iff none, `Overdue` iff fewer than zero |
| `Symbols.PriorityColor` | src/main/kotlin/TaskList.kt:18-27 | a real priority prints as one coloured cell (a background-colour escape, a blank and the reset); the `NULL` sentinel prints as `NULL` |
| `Symbols.StateColor` | src/main/kotlin/TaskList.kt:39-47 | every state prints as one coloured cell |
| `Symbols.PrioritySymbolsDistinct` | src/main/kotlin/TaskList.kt:18-23 | no two priorities share a symbol, so a lookup result is unique |
| `Symbols.FieldSymbolsDistinct` | src/main/kotlin/TaskList.kt:28-32 | no two fields share a symbol |
| `Tasks.FirstEmpty` | src/main/kotlin/TaskList.kt:132-138 | the reading loop stops at the first empty trimmed line: every earlier one is non-empty |
| `Tasks.TypedLines` | src/main/kotlin/TaskList.kt:129-139 | the body lines are the console lines trimmed, in order, up to the first one that is blank once trimmed; each is non-empty; the model also stops at the end of the given lines (see `Tasks.Task.SetText` under Left out) |
| `Tasks.AppendLine` | src/main/kotlin/TaskList.kt:141 | the first line becomes the whole text; after a text that does not end in `\r`, `lines()` of the result is the old text's lines followed by the new line's |
| `Tasks.AppendLineJoins` | src/main/kotlin/TaskList.kt:140-142 | `addLn` of one more line to a body built from non-empty lines gives those lines and the new one joined with `"\n"` |
| `Tasks.TypedTextFirstLine` | src/main/kotlin/TaskList.kt:129-142 | a body that `setText` built from at least one line has a non-empty first line, so it can be laid out |
| `Tasks.TypedTextLines` | src/main/kotlin/TaskList.kt:129-142 | `lines()` of a body built by `setText` gives back the lines that were typed |
| `Tasks.StateFollowsCalendar` | src/main/kotlin/TaskList.kt:73-81 | with today's date: `InTime` iff the due date is later, `Overdue` iff it is earlier, and `Today` iff it is the same date |
| `Tasks.StateExamples` | src/main/kotlin/TaskList.kt:73-81 | with today 2024-06-10, 2024-06-15 is `InTime`, 2024-06-05 is `Overdue`, and 2024-06-10 is `Today` |
| `Tasks.Task.constructor` | src/main/kotlin/TaskList.kt:61 | a task holds the four values it is built with |
| `Tasks.Task.Blank` | src/main/kotlin/TaskList.kt:67 | the blank task has empty strings and the `NULL` priority, and it is empty |
| `Tasks.Task.IsEmpty` | src/main/kotlin/TaskList.kt:162 | a task is empty iff `lines()` of its body is a single empty line, a body `textAdoption` cannot lay out (so is any body whose first line is empty, `Layout.Renderable`) |
| `Tasks.Task.Components` | src/main/kotlin/TaskList.kt:62-66 | `component1`, `component2`, `component3` and `component5` give the date, the time, the priority and the text; `component4` gives `state` (`Tasks.Task.StateOn`) |
| `Tasks.Task.DateLD` | src/main/kotlin/TaskList.kt:68-72 | the due date read from the date string is a valid calendar date with a non-negative year; for a canonical date string it renders back to that string |
| `Tasks.Task.StateOn` | src/main/kotlin/TaskList.kt:73-82 | with `today` as the current day number: `InTime` iff the due day is later, `Today` iff it is the same day, and `Overdue` iff it is earlier; exactly one holds |
| `Tasks.Task.SetPriority` | src/main/kotlin/TaskList.kt:90-98 | a line is accepted iff its upper-case form is a priority symbol, and then sets that priority; nothing else changes |
| `Tasks.Task.SetDate` | src/main/kotlin/TaskList.kt:109-118 | an accepted line stores its canonical date; a rejected one leaves the date alone; nothing else changes |
| `Tasks.Task.SetTime` | src/main/kotlin/TaskList.kt:119-128 | an accepted line stores its canonical time; a rejected one leaves the time alone; nothing else changes |
| `Tasks.Task.AddLn` | src/main/kotlin/TaskList.kt:140-142 | the line is appended after a newline, or alone when the text was empty; the other fields are unchanged |
| `Tasks.Task.SetText` | src/main/kotlin/TaskList.kt:129-139 | the body is replaced, not appended to, by the typed lines joined with `"\n"`; the task is empty iff no line was typed; it reports how many console lines were read; the other fields are unchanged |
| `Tasks.Task.Build` | src/main/kotlin/TaskList.kt:83-89 | each of priority, date and time is set from its answer when accepted, the body is set by `setText`, and success means all three answers were accepted |
| `Tasks.Task.Edit` | src/main/kotlin/TaskList.kt:143-161 | the lower-cased field line picks the field, or none is picked when it names no field; only the picked field can change, and only with the value its input gives; editing `task` replaces the whole body |
| `Layout.Chunked` | src/main/kotlin/TaskList.kt:199 | `chunked(w)` gives no piece for an empty line, and pieces of 1 to `w` characters otherwise |
| `Layout.ChunkedConcat` | src/main/kotlin/TaskList.kt:199 | the pieces put back together give the line |
| `Layout.ChunkedCount` | src/main/kotlin/TaskList.kt:199 | a line of `n` characters gives `ceil(n / w)` pieces |
| `Layout.PaddedChunksWidth` | src/main/kotlin/TaskList.kt:199-200 | after the last piece is padded, every cell of a line is exactly `w` characters |
| `Layout.PaddedChunksContent` | src/main/kotlin/TaskList.kt:199-200 | a line's cells spell the line followed by fewer than `w` spaces of padding |
| `Layout.AdoptedWidth` | src/main/kotlin/TaskList.kt:196-203 | every string `textAdoption` returns is exactly `w` characters |
| `Layout.AdoptedCount` | src/main/kotlin/TaskList.kt:196-203 | the number of cells is the sum over the body's lines of their piece counts |
| `Layout.AdoptedAppend` | src/main/kotlin/TaskList.kt:198-201 | cells come line after line, in the order of the body's lines |
| `Layout.EmptyLineAdoptsNothing` | src/main/kotlin/TaskList.kt:198-201 | an empty line after the first gives no cell (an empty first line makes `textAdoption` index position -1 and throw) |
| `Layout.AdoptedFirst` | src/main/kotlin/TaskList.kt:196-203 | when the first line is not empty there is a first cell, and it is the first padded piece of that line |
| `Layout.TwoLineBody` | src/main/kotlin/TaskList.kt:196-203 | a 46-character line and a 5-character line give three cells: 44 characters, the 2 left over padded, and the second line padded |
| `Layout.IndexCell` | src/main/kotlin/TaskList.kt:219 | the number cell keeps the N column two characters wide for the first 99 tasks |
| `Layout.IndexCellNumber` | src/main/kotlin/TaskList.kt:219 | for the first 99 tasks the number cell, trimmed, is the task's position plus one in decimal |
| `Layout.MainLine` | src/main/kotlin/TaskList.kt:222 | a main row is 17 border characters plus its number, date, time, two colour cells and first cell, and it ends with the cell in the Task column followed by `\|` |
| `Layout.SublimeLine` | src/main/kotlin/TaskList.kt:13-15 | `TABLE_SUBLIME` with the cell put in: 35 characters of empty columns (only blanks and bars), then the cell, then `\|` |
| `Layout.TaskBlock` | src/main/kotlin/TaskList.kt:217-230 | a task adds one line per cell of its body plus one separator |
| `Layout.TableLinesAppendRow` | src/main/kotlin/TaskList.kt:217-230 | one more task appends its block, numbered by its position, after the earlier table |
| `Layout.HeadJoin` | src/main/kotlin/TaskList.kt:8-12 | the header is its three lines joined by newlines, and none of them holds a break |
| `Layout.TableLineCount` | src/main/kotlin/TaskList.kt:215-232 | the table has 3 header lines plus, for each task, its cell count plus one separator; an empty list renders as the header alone |
| `Layout.SublimeLineShape` | src/main/kotlin/TaskList.kt:13-15 | a continuation row is 80 characters, with the cell in the Task column |
| `Layout.MainLineShape` | src/main/kotlin/TaskList.kt:222 | a main row is 78 characters plus its two colour cells; the borders and the title are 80 characters |
| `Layout.TableLinesDisplayed` | src/main/kotlin/TaskList.kt:215-232 | splitting the rendered text at its line breaks gives back exactly the table's lines |
| `TaskLists.RowsOfShowable` | src/main/kotlin/TaskList.kt:217-218 | row `i` destructures task `i` (date, time, priority, state, text) in list order, and every row can be laid out |
| `TaskLists.TableOfShape` | src/main/kotlin/TaskList.kt:215-232 | the table of a task list has 3 + Σ(cells + 1) lines, and an empty list gives exactly `TABLE_HEAD` |
| `TaskLists.TableOfDisplayed` | src/main/kotlin/TaskList.kt:215-232 | the lines of the rendered text are the table's lines, one display line each |
| `TaskLists.TaskList.constructor` | src/main/kotlin/TaskList.kt:168-177 | a new list holds the decoded tasks when the save file exists and its text decodes to a list; it is empty when there is no file or the file holds the JSON `null` |
| `TaskLists.TaskList.Load` | src/main/kotlin/TaskList.kt:210-214 | the list is replaced when the file exists and its text decodes to a list; with no file, or a file holding the JSON `null` (`?: return`), it is left unchanged |
| `TaskLists.TaskList.Add` | src/main/kotlin/TaskList.kt:178 | the list becomes the old list followed by the task |
| `TaskLists.TaskList.Delete` | src/main/kotlin/TaskList.kt:182-185 | the list becomes `old[..i] + old[i+1..]`: earlier tasks keep their positions and later ones move down by one |
| `TaskLists.TaskList.Edit` | src/main/kotlin/TaskList.kt:179-181 | the task at the index is edited as `Task.edit` does: the lower-cased field line picks the field; for each outcome the picked field takes the value its input gives and the other three fields keep their values; a rejected or unknown field changes nothing; no other task changes |
| `TaskLists.TaskList.IsEmpty` | src/main/kotlin/TaskList.kt:186 | an empty list accepts no task number at all; a non-empty one accepts `1` as its first task |
| `TaskLists.TaskList.SelectIndex` | src/main/kotlin/TaskList.kt:187-195 | an accepted index is a position of the list; non-numeric input is never accepted; for lists within `Int` range, a line is accepted iff it parses to `n` with 1 ≤ n ≤ size, and then gives n − 1 |
| `TaskLists.SelectShownNumber` | src/main/kotlin/TaskList.kt:187-195 | the decimal form of every task number selects that very task, and for the first 99 tasks so does the N column's cell, trimmed |
| `TaskLists.TaskList.TextAdoption` | src/main/kotlin/TaskList.kt:196-203 | the loop returns the padded pieces of every line of the text, line after line, and at least one cell |
| `TaskLists.TaskList.AdoptLine` | src/main/kotlin/TaskList.kt:199-200 | one pass adds the line's pieces and pads the last cell, which gives the earlier cells followed by the line's padded pieces |
| `TaskLists.TaskList.RenderRows` | src/main/kotlin/TaskList.kt:216-231 | the `StringBuilder` loop produces the header and each row's block, joined by newlines |
| `TaskLists.TaskList.AppendBlock` | src/main/kotlin/TaskList.kt:219-229 | one pass appends the task's main row, its continuation rows and the separator, each after a newline |
| `TaskLists.TaskList.ToString` | src/main/kotlin/TaskList.kt:215-232 | the rendered text is the table of the list's rows on day `today`, joined by newlines |
| `TaskLists.BlankEditNotShowable` | src/main/kotlin/TaskList.kt:143-161 | a `task` edit answered with a blank line leaves an empty body, whose first line is empty, so `textAdoption` has no cell to pad |

## Left out

- JSON persistence (`jsonAdapter`, `save`, and decoding in `load`, lines 170-177 and 205-214) relies on Moshi reflection adapters and `java.io.File`. `load` is modelled by what decoding yielded; `save` is not modelled.
- `TaskLists.TaskList.constructor` and `TaskLists.TaskList.Load`: a save file that exists but is empty or malformed makes `fromJson` throw, so `TaskList()` and `load()` raise an exception. The model has no such outcome. Its `decoded == None` stands only for a file holding the JSON `null`.
- `Clock.System.now()` and `TimeZone` (line 75) are replaced by a `today` day-number parameter. `daysUntil` is day-number subtraction.
- The `readln` retry loops of `setPriority`, `setDate`, `setTime`, `setText`, `edit` and `selectIndex` are modelled as the acceptance test for one line. Where the source would prompt again, a rejected answer leaves the field unchanged.
- The `println` prompts and messages are not modelled.
- The ANSI colour markers are constant strings. The model counts their characters, not their display width on a terminal.
- `Layout.Chunked`, `Layout.PaddedChunks` and `TaskLists.TaskList.TextAdoption`: widths and pieces are counted in Unicode scalar values, the characters of a Dafny string. Kotlin's `chunked` and `length` count UTF-16 code units. So text outside the Basic Multilingual Plane is cut differently: 30 emoji are 60 units, two cells in Kotlin but one in the model. Kotlin can also split a surrogate pair across two cells, which the model cannot express.
- The unused helper `set(msg, substring)` (lines 99-108) is not modelled.
- `Task.toString()` (lines 163-165) is not used by the table and is not modelled.
- src/main/kotlin/Main.kt, the console command loop, is not part of this model.
- `Numbers.ParseInt`, `Calendar.ParseDate`, `Calendar.ParseTime`, `Calendar.ToDateTimeOrNull`, `Calendar.AcceptDate`, `Calendar.AcceptTime`, `Tasks.Task.DateLD`, `Tasks.Task.SetDate`, `Tasks.Task.SetTime` and `TaskLists.TaskList.SelectIndex`: only ASCII digits are read. `toInt()` is `Integer.parseInt`, which accepts every Unicode decimal digit, and `readln()` returns any text. So Kotlin's `setDate` takes `٢٠٢٤-٠١-٠٥` (Arabic-Indic digits) or `２０２４-０１-０５` (fullwidth digits) and stores `2024-01-05`, `setTime` takes `١٠:٣٠` and stores `10:30`, and `selectIndex` takes `١` as task 1; the model rejects these lines. Only the digit set differs: sign, range and separators are as in Kotlin.
- `Tasks.Task.Edit` and `Tasks.Task.SetPriority`: `uppercase()` and `lowercase()` are modelled on ASCII letters only. Kotlin follows Unicode case mapping, which sends some non-ASCII letters to ASCII ones. U+212A KELVIN SIGN lowercases to `k`, so Kotlin takes `tasK` (with that sign) as the `task` field, while the model reports no field.
- `Tasks.Task.SetText`, `Tasks.Task.Edit` and `TaskLists.TaskList.Edit`: at the end of console input `readln()` throws `ReadAfterEOFException`, so `setText`, `setPriority`, `setDate` and `setTime` fail there. The model treats the end of the given lines for the body like a blank line and keeps the lines read so far. In an edit with no line after the field line, the model reports `Rejected` for priority, date or time and leaves the task unchanged.
- `TaskLists.TaskList.SelectIndex`: the "accepted iff 1 ≤ n ≤ size" direction is stated only for lists of at most `Int.MAX_VALUE` tasks. A longer list cannot exist in Kotlin.
- `TaskLists.TaskList.ToString`: requires every task to have a readable date and a body whose first line is not empty. The source throws an exception in `dateLD` or `textAdoption` otherwise, and that exception is not modelled.
- `TaskLists.TaskList.TextAdoption`: requires the first line of the text to be non-empty. The source indexes position -1 otherwise.
- `Tasks.Task.StateOn`: requires a date string that `dateLD` can read. The source throws otherwise.
- `TaskLists.TaskList.Delete` and `TaskLists.TaskList.Edit` require a valid index. `removeAt` and `list[index]` throw otherwise, and the caller always passes a `selectIndex` result.
