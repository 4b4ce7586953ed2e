# Tasker dashboard: the task-to-bubble layout

The Tasker front end fetches a user's tasks from the task store and draws
each one as a bubble on a time chart (`renderTasksAsBubbles` in
`script.js`). This project models that function's data logic, not its
drawing calls:

- It rewrites each task's `dueDate` into an instant, in place on the
  caller's array.
- It sorts that array in place by due date, ascending. The sort is stable.
- It sets the horizontal time domain to run from a day before the earliest
  due date to a day after the latest.
- Each bubble's height is its due date's local time of day: hours and
  minutes on a midnight-to-midnight scale.
- The radius comes from the priority: HIGH 50, MEDIUM 35, LOW 20, any other
  value or a missing field 30.
- The fill is red for HIGH, green for LOW and yellow for anything else.
- The title label sits at the bubble's height plus its radius plus 15.

Modules, one per concern of the function:

- `Wrappers` (wrappers.dfy): `Option`, for a field that may be missing.
- `Tasks` (tasks.dfy): the task record, its due date as text or as an
  instant, and the in-place normalisation.
- `Ordering` (ordering.dfy): the stable sort. It has a reference definition
  (`SortByDue`), proofs that the result is sorted, a permutation and
  stable, and a proof that these three properties fix the result. The
  in-place insertion sort (`SortInPlace`) computes that result.
- `Layout` (layout.dfy): the domain, the time-of-day key, the radius, the
  fill, the label offset and the bubble list.
- `Render` (render.dfy): the whole data step as one method on the caller's
  array, and lemmas about the list it prepares.

Inputs the program gets from outside become parameters:

- `parse: string -> int` stands for `new Date(text)`.
- `offsetMs` is the local time zone's offset from UTC.
- `xScaleFor` and `yScale` stand for the two `d3.scaleTime()` scales.
  They are only assumed to be non-decreasing, and only by the lemmas that
  need it.

Details of the code that the model keeps:

- An unrecognised or missing priority gets radius 30, not MEDIUM's 35
  (script.js:113). It does get MEDIUM's yellow fill (script.js:118).
- The y range is `[50, height - 50]` (script.js:66). The model keeps it
  inside the `yScale` parameter.
- On an empty task list `d3.min` and `d3.max` give `undefined`
  (script.js:55-56), so the chart has no valid domain and draws no bubble.
  `RenderTasksAsBubbles` returns no domain (`None`) and no bubbles there.

## Model

| member | source | states |
|---|---|---|
| `Tasks.ToInstant` | script.js:48 | `new Date(d)` always yields an instant: text becomes its parsed value and an instant is copied unchanged |
| `Tasks.NormalizeAll` | script.js:47-49 | normalising keeps the length, makes every due date an instant, and leaves title, description, priority, completed and userId of every task as they were; already-parsed tasks are untouched |
| `Tasks.NormalizeIdempotent` | script.js:47-49 | normalising an already normalised list changes nothing |
| `Tasks.NormalizeDueDates` | script.js:47-49 | the in-place loop leaves the array equal to `NormalizeAll` of its old contents |
| `Ordering.SortByDueSorted` | script.js:52 | the sorted list has non-decreasing due instants |
| `Ordering.SortByDuePermutes` | script.js:52 | the sorted list is a permutation of the input (same multiset) |
| `Ordering.SortByDueStable` | script.js:52 | for every instant, the tasks due then appear in the same relative order as in the input (stable sort) |
| `Ordering.SortedAndStableIsUnique` | script.js:52 | any sorted list that keeps every instant's tasks in input order equals `SortByDue`, so any stable sort with this comparator gives exactly this result |
| `Ordering.InsertSplit` | script.js:52 | inserting a task puts it right after the last task due no later than it and before those due strictly later |
| `Ordering.SortInPlace` | script.js:52 | the in-place sort leaves the array equal to `SortByDue` of its old contents |
| `Layout.EarliestDue` | script.js:55 | the result is a lower bound of all due instants and is some task's due instant |
| `Layout.LatestDue` | script.js:56 | the result is an upper bound of all due instants and is some task's due instant |
| `Layout.TimeDomain` | script.js:58-60 | every due instant lies at least a day inside each end of the domain, so strictly inside it, and each end is exactly a day from some task's due instant |
| `Layout.DomainOfSorted` | script.js:52-60 | on the sorted list the domain is the first task's due instant minus a day to the last task's plus a day |
| `Layout.Hours` | script.js:109 | `getHours` is a whole hour in [0, 24) |
| `Layout.Minutes` | script.js:109 | `getMinutes` is a whole minute in [0, 60) |
| `Layout.TimeOfDay` | script.js:109 | the vertical key is a minute of the day in [0, 1440) |
| `Layout.TimeOfDayIsMinuteOfDay` | script.js:109 | the key equals the local minute since the epoch taken modulo 1440, so seconds and milliseconds never enter it |
| `Layout.TimeOfDayOfClock` | script.js:109 | a local clock reading h:m on any day, at any second and millisecond, has key h*60+m |
| `Layout.TimeOfDayIgnoresDate` | script.js:109 | shifting a due date by any whole number of days leaves its key unchanged |
| `Layout.Radius` | script.js:113 | every radius lies between 20 and 50 |
| `Layout.RadiusByPriority` | script.js:113 | with the lookup table of script.js:44: radius 50 exactly for HIGH, 35 exactly for MEDIUM, 20 exactly for LOW, and 30 exactly for every other string and for a missing priority |
| `Layout.Fill` | script.js:115-119 | the fill is one of red, green, yellow |
| `Layout.FillMatchesRadius` | script.js:112-119 | red exactly when the radius is 50 (HIGH), green exactly when it is 20 (LOW), yellow exactly when it is 30 or 35 (MEDIUM, unknown, missing) |
| `Layout.LabelY` | script.js:153-156 | the label is 15 below the bubble's lowest point (centre plus radius) and so at least 35 below its centre |
| `Layout.Bubbles` | script.js:101-159 | one bubble per task in list order: x from the due instant, y from the local time of day, radius and fill from the priority, label at the bubble's x and radius + 15 below its centre, showing the task's title |
| `Layout.LabelsBelowBubbles` | script.js:152-156 | every label shares its bubble's x, sits radius + 15 below its centre (at least 35), and shows that task's title; radius and fill follow the task's priority |
| `Layout.BubblesLeftToRight` | script.js:105-107 | on the sorted list, with a non-decreasing x scale, bubble x positions are non-decreasing |
| `Layout.BubbleHeightByTimeOfDay` | script.js:108-111 | bubbles at the same local minute of day share a height, and with a non-decreasing y scale an earlier time of day never maps below a later one on the scale |
| `Render.Prepared` | script.js:47-52 | the prepared list has every due date parsed |
| `Render.PreparedKeepsTasks` | script.js:47-52 | normalise-then-sort keeps the task count and the tasks (up to their parsed due dates), orders them by due date and is stable |
| `Render.PreparedChart` | script.js:52-61 | on the prepared list the domain is the first due instant minus a day to the last plus a day, and bubbles run left to right |
| `Render.TwoTaskExample` | script.js:47-52 | two tasks with text due dates, a HIGH one on 10 March and a LOW one on 8 March: after parsing and sorting the LOW one comes first and is green, the HIGH one second and red |
| `Render.RenderTasksAsBubbles` | script.js:38-161 | the caller's array ends up normalised and sorted; on an empty array there is no domain and no bubble, otherwise the domain and every bubble's attributes are computed from the sorted array |

## Left out

- Network I/O is not modelled: `fetchTasks`, `fetchUsers` and the form submit handler, with their error logging and alerts.
- DOM work is not modelled: the user select, the buttons, the details box and its positioning, the tooltip text and the click handler.
- d3 drawing is not modelled: axes, tick formats, `selectAll`/`append`/`remove`, opacity, text anchor and font styles.
- The pixel values of `d3.scaleTime` are not modelled. They are floating-point interpolation over a range read from `getBoundingClientRect`. The scales are parameters assumed only to be non-decreasing.
- A drawing area narrower than 100 px makes the range `[50, width - 50]` decreasing. The left-to-right lemmas exclude that case through their monotonicity assumption.
- Date parsing and locale formatting (`new Date(text)`, `toLocaleDateString`, `d3.timeFormat`) are not modelled. `parse` is a total function to integer milliseconds, so an unparseable string (an Invalid Date, whose NaN makes the sort comparator inconsistent) is not modelled.
- `d3.timeDay.offset` moves by a local calendar day, which is 23 or 25 hours across a daylight-saving change. The model uses a fixed 86,400,000 ms.
- The local time of day uses one fixed UTC offset. Offsets that change with the date (daylight saving, historical zone changes) are not modelled.
- The y scale's domain, `new Date(0, 0, 0, 0, 0)` to `new Date(0, 0, 0, 24, 0)`, is taken to be exactly 1440 minutes long.
- Radius: the lookup on the plain object `priorityScale` also finds inherited properties. A priority string such as "toString", "constructor" or "__proto__" would give a non-number instead of 30. The model gives every string outside HIGH, MEDIUM and LOW the default 30.
- A priority value that is neither a string nor `null` (a number, an object) is not modelled. A missing or `null` priority is `None`, and both give radius 30 and yellow.
- The engine's own sort algorithm is not modelled. `SortInPlace` is an insertion sort. `SortedAndStableIsUnique` shows that every stable sort with this comparator produces the same array.
- Tasks are values held in the array's slots. Object identity is not modelled: the same objects are bound to the circles and labels by d3.
- Week-number and week-range computations and week filtering are not modelled. They are not part of `script.js`.
