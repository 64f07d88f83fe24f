# Task tracker front end: verified model of its local logic

The repository is a single browser script, `app.js`. It is a task and
subject tracker. A hosted backend stores the rows and handles sign-in, and a
button imports assignments from a Canvas LMS course. Most of the script is
backend calls and DOM plumbing. This project models the parts that compute
something locally, and proves what they promise:

- **HTML escaping** (`escapeHtml`). `Sanitizer` maps each of `& < > " '` to
  its entity and copies every other character. A falsy argument gives `""`.
  An independent entity decoder, `Unescape`, gives the round trip.
- **Calendar days and `isSameDay`**. `Calendar` represents a local calendar
  day as a `(year, month, day)` triple. `NextDay` rolls over month and year
  ends with Gregorian leap years, which is what `setDate(getDate() + i)` does.
  An instant is its local date plus the milliseconds since local midnight.
- **The week view** (`renderWeekView`). `WeekView.BuildWeek` is the bucket
  loop: seven buckets from today's midnight, then every task with a due time
  pushed into each bucket whose day matches. It is proved equal to the
  specification `WeekBuckets`. The lemmas cover the seven contiguous,
  strictly ascending dates, membership in both directions, at most one
  bucket per task, tasks outside the window, and stable order.
  `WeekViewElement.Render` adds the early return for an empty list and the
  columns built from the buckets.
- **The task list** (`renderTaskList`). `TaskList` models the list as the
  element's children: the "No tasks" placeholder, or one row per task in
  input order. Each row holds the escaped title, the escaped description or
  `""`, a `'No due'` marker or the due date, and the id for its delete button.
- **Canvas import boundary logic**. `CanvasImport` covers the input guard,
  `detectCanvasBase`, the URL for the "list assignments" endpoint
  (`{base}/api/v1/courses/{courseId}/assignments`) and the mapping from
  assignments to task rows. The token input may hold `base|token`, with the
  bar character `|` between a self-hosted base URL and the token.
  `detectCanvasBase` overwrites the token input;
  the model makes that explicit state (`CanvasImportForm.tokenField`) and
  explicit output (`Detection.tokenField`). `JsText` models the JavaScript
  `trim`, `split` and trailing-slash `replace` it relies on.

Three behaviours of the code are easy to misread; the model follows the code:

- **Week view visibility.** `renderWeekView` adds the `hidden` class on every
  call and never removes it (app.js:167). The model sets `hidden` on every
  render, so no render ever leaves the week view visible.
- **Bearer token.** The request's `Authorization` header uses the token read
  at app.js:215, before `detectCanvasBase` rewrites the input (app.js:252).
  For a `base|token` field, the header therefore carries the whole trimmed
  field, `base|` included. The comment at app.js:251 says otherwise.
  `HeaderKeepsWholeField` states the behaviour as written.
- **Import guard.** Besides the token and course id, the guard also rejects
  an empty detected base (app.js:219). A field such as `|t` or `/|t` stops
  the import there, but `detectCanvasBase` has already rewritten the token
  input to `t` (app.js:252).

## Model

| member | source | states |
|---|---|---|
| Sanitizer.EscapeHtml | app.js:264-267 | an absent or empty argument gives ""; otherwise the per-character escape; the result never contains `<`, `>`, `"` or `'`, and every `&` in it begins one of the five entities |
| Sanitizer.IsSpecial | app.js:266 | the characters the pattern `[&<>"']` matches are exactly the five `&`, `<`, `>`, `"`, `'` |
| Sanitizer.EscapeChar | app.js:266 | the replacement table: a character is kept as itself exactly when it is not one of `& < > " '`, and the replacement starts with `&` exactly for those five |
| Sanitizer.Escape | app.js:266 | escaping never shortens the text |
| Sanitizer.EscapeNoRawMarkup | app.js:266 | escaped text contains none of `<`, `>`, `"`, `'` |
| Sanitizer.EscapeAmpersands | app.js:266 | every `&` in escaped text starts `&amp;`, `&lt;`, `&gt;`, `&quot;` or `&#39;` |
| Sanitizer.UnescapeEscape | app.js:266 | decoding the five entities in the escaped text gives back the input exactly |
| Sanitizer.EscapeAppend | app.js:266 | escaping distributes over concatenation, so characters are handled in order and independently |
| Sanitizer.EscapeIdentity | app.js:266 | escaping leaves the text unchanged exactly when it has none of the five special characters |
| Calendar.IsSameDay | app.js:260-262 | two instants are on the same day exactly when their local dates (year, month, day) are equal, so the relation is reflexive, symmetric and transitive |
| Calendar.NextDay | app.js:173-176 | the next day is strictly later in calendar order, is a valid date when the day is one, and no valid date lies strictly between them |
| Calendar.AddDaysAscending | app.js:173-176 | `start + i` days comes strictly before `start + j` days whenever i < j |
| Calendar.AddDaysValid | app.js:173-176 | adding days to a valid calendar date gives a valid calendar date |
| Calendar.AddDaysInjective | app.js:173-176 | different day offsets from one start give different days |
| Calendar.AddDays | app.js:173-176 | `setDate(getDate() + n)` from a midnight: a positive offset gives a strictly later day; order, validity and distinctness are in AddDaysAscending, AddDaysValid and AddDaysInjective |
| Calendar.StartOfDay | app.js:170-171 | `setHours(0,0,0,0)` keeps the calendar day and sets the time of day to midnight |
| WeekView.BucketDate | app.js:173-176 | every bucket date is a midnight, and bucket 0 is on today's date |
| WeekView.WeekBuckets | app.js:172-177 | there are always exactly seven buckets, whatever the input |
| WeekView.BuildWeek | app.js:170-184 | the push loop and the nested `forEach` loops produce exactly the specified seven buckets: bucket i holds, in input order, the tasks due on day i |
| WeekView.DueOn | app.js:179-183 | a task counts for a day exactly when it has a due time and that time's local date is the day's date; a task without `due_at` counts for no day |
| WeekView.TasksDueOn | app.js:178-184 | the tasks kept for one day are at most the input and all due that day; membership both ways is TasksDueOnMembers and order is TasksDueOnAppend |
| WeekView.TasksDueOnAppend | app.js:178-184 | the tasks kept for a day from a concatenation are those kept from each part, in order |
| WeekView.TasksDueOnMembers | app.js:178-184 | a task is kept for a day exactly when it is in the input and has a due time on that day |
| WeekView.WeekDates | app.js:170-177 | the first bucket is today at midnight, each next bucket is the following calendar day, all seven dates strictly ascend, and all are valid dates when today is |
| WeekView.BucketMembership | app.js:178-184 | a task is in bucket i exactly when it is an input task with a due time whose date is today plus i days |
| WeekView.AtMostOneBucket | app.js:178-184 | no task is in two different buckets |
| WeekView.OutsideWindow | app.js:179-183 | a task with no due time, due before today, or due seven or more days ahead is in no bucket |
| WeekView.SameDayKeepsOrder | app.js:178-184 | two tasks due on the same day of the window appear in that bucket in their input order, surrounded only by that day's other tasks |
| WeekView.ColumnContents | app.js:191-209 | a column shows the placeholder exactly when no input task is due that day; otherwise one entry per bucketed task, in order, with a title that decodes back to the task's title, contains no raw markup, has every `&` beginning an entity, and the task's time of day |
| WeekView.EntryOf | app.js:201-205 | an entry's title decodes back to the task's title, has no raw markup and every `&` beginning an entity; its time is present exactly when the task has a due time, and is then that time of day |
| WeekView.ColumnOf | app.js:191-208 | a column keeps its bucket's date, shows the placeholder exactly when the bucket is empty, and otherwise one entry per bucketed task in bucket order |
| WeekView.WeekViewElement.Render | app.js:165-211 | the element is cleared and marked hidden; with no tasks it stays empty, otherwise it holds the seven columns of the specified buckets |
| TaskList.ListView | app.js:136-153 | one node for no tasks, that node the placeholder; otherwise one node per task, each a task row; the contents of the rows are RowShowsTask and ListRows |
| TaskList.EmptyList | app.js:137-138 | an empty task list renders as the "No tasks" placeholder alone |
| TaskList.RowShowsTask | app.js:140-151 | a row's title and description decode back to the task's title and description (absent gives ""), contain no raw markup, have every `&` beginning an entity, show `'No due'` exactly when there is no due time and the due date otherwise, and carry the task's id on the delete button |
| TaskList.DescriptionText | app.js:146 | the fallback of `t.description` to `''` shows the description when present, and is empty exactly when the description is absent or itself empty |
| TaskList.RowOf | app.js:140-151 | a row's delete id is the task's id, and its due label is `'No due'` exactly when there is no due time and the due date otherwise; the escaped texts are RowShowsTask |
| TaskList.ListRows | app.js:139-153 | a non-empty list renders exactly one row per task, in input order, each showing its task |
| TaskList.TaskListElement.Render | app.js:136-153 | after rendering, the children are the placeholder (empty input) or one row per task in order |
| JsText.TrimStart | app.js:215-216 | leading trim never lengthens the text; what it keeps and drops is TrimStartSpec |
| JsText.TrimEnd | app.js:215-216 | trailing trim never lengthens the text; what it keeps and drops is TrimEndSpec |
| JsText.Trim | app.js:248 | `trim` never lengthens the text; its ends and emptiness are TrimEnds and TrimEmpty |
| JsText.TrimStartSpec | app.js:215-216 | leading trim keeps a suffix that does not start with whitespace and removes only whitespace |
| JsText.TrimEndSpec | app.js:215-216 | trailing trim keeps a prefix that does not end with whitespace and removes only whitespace |
| JsText.TrimEnds | app.js:215-216 | a non-empty trimmed value neither starts nor ends with whitespace |
| JsText.TrimEmpty | app.js:217 | the trimmed value is empty, and so fails the guard, exactly when the input is all whitespace |
| JsText.Split | app.js:250 | `split` yields at least one piece, and no piece contains the separator |
| JsText.JoinSplit | app.js:250 | joining the pieces with the separator gives back the text |
| JsText.SplitMany | app.js:249-250 | there are two or more pieces exactly when the separator occurs |
| JsText.SplitNoSeparator | app.js:249-250 | text without the separator is its own single piece |
| JsText.SplitHead | app.js:250 | the first piece runs from the start to the first separator or to the end |
| JsText.SplitAtFirst | app.js:250 | with a separator present, the pieces are the text before the first separator followed by the pieces of the text after it |
| JsText.IndexOf | app.js:249-250 | the position found holds the separator, and the separator does not occur before it |
| JsText.StripTrailingSlash | app.js:253 | one trailing `/` is removed when present, and the text is otherwise unchanged |
| CanvasImport.DetectBase | app.js:246-257 | without a bar in the trimmed field, the Canvas Cloud host and the field unchanged; with one, a rewritten field that holds no bar; the full characterisation is DetectBaseSpec |
| CanvasImport.DetectBaseSpec | app.js:246-257 | with a bar in the trimmed field, the base is the text before the first bar less one trailing `/`, and the field becomes the text between the first and second bar, which contains no bar; without one, the base is `https://canvas.instructure.com` and the field is unchanged |
| CanvasImport.CanvasImportForm.DetectCanvasBase | app.js:246-257 | returns the detected base and leaves in the token input the value detection prescribes |
| CanvasImport.AssignmentsUrl | app.js:220 | the URL is the base, then `/api/v1/courses/`, then the course id, then `/assignments`, and nothing else; AssignmentsUrlInjective follows from it |
| CanvasImport.AssignmentsUrlInjective | app.js:220 | for a fixed base, the assignments URL determines the course id in it |
| CanvasImport.PlanImport | app.js:214-220 | a request is planned only when the trimmed token, the trimmed course id and the detected base are all non-empty, and a failed first check leaves the token field alone; the rest is ImportGuard and HeaderKeepsWholeField |
| CanvasImport.ImportGuard | app.js:214-222 | a request is built exactly when the trimmed token, the trimmed course id and the detected base are all non-empty; a failed first check leaves the token input alone; the URL is `base + "/api/v1/courses/" + courseId + "/assignments"`; the header is `"Bearer "` plus the trimmed field as first read |
| CanvasImport.HeaderKeepsWholeField | app.js:215-222 | with a `base` bar `token` field, the bearer token is the whole trimmed field, bar included, and differs from the rewritten token input, which never contains a bar |
| CanvasImport.EmptyBaseStillRewritesField | app.js:217-219 | when the guard passes and the text before the first bar is empty or a lone `/`, the import stops for want of a base, but the token input already holds the rewritten value |
| CanvasImport.CanvasImportForm.StartImport | app.js:214-220 | the click handler up to `fetch` yields the planned outcome and token-input value |
| CanvasImport.ToPayload | app.js:229-236 | a payload has the assignment's name as title, its description or "" when there is none, its due time unchanged, its id as external id, and source "canvas" |
| CanvasImport.ToPayloads | app.js:229-236 | the mapped list has as many payloads as there are assignments; order and fields are ToPayloadsPointwise |
| CanvasImport.ToPayloadsPointwise | app.js:229-236 | the mapping keeps length and order; each payload has title = name, description = description or "", due time unchanged, external id = assignment id, source "canvas" |
| CanvasImport.ToPayloadsAppend | app.js:229-236 | the mapping works element by element: it distributes over concatenation |

## Left out

- Backend calls are not modelled. This covers sign-in, sign-up, sign-out, the
  identity listener, every insert, select, order and delete, and the
  `Promise.all` in `refreshAll`. They are calls into a hosted library whose
  behaviour is not visible here.
- The sort order of the fetched task list is not modelled. It comes from the
  backend (`order('due_at')`), and the renderers take the list as given.
- The Canvas `fetch` is not modelled, nor its status and body handling, nor
  the `try/catch` around it. They are network I/O. The model stops at the
  request the handler would send (`ImportStart.Fetch`).
- DOM construction is not modelled beyond the abstract rows and columns.
  That includes styling, inline markup, `alert`, `console.error` and the
  delete-button listeners bound after each list render. These are UI side
  effects.
- `renderAuthState` and `refreshSubjects` are not modelled. They only toggle
  classes and print fetched subject titles.
- Locale formatting (`toLocaleDateString`, `toLocaleTimeString`, the weekday
  label) is not modelled. A due label carries the date, and a column entry
  carries the time of day in milliseconds.
- Time zones and timestamp parsing are not modelled. A task's `due_at` is
  taken as already converted to a local date and time of day. Invalid
  timestamps (a `NaN` date, which matches no day) are not modelled, because
  the backend column holds timestamps or null.
- The task record keeps only the fields the renderers read: id, title,
  description and due time. The imported `external_id` and `external_source`
  appear only in `CanvasImport.TaskPayload`.
- JSON field types are simplified. An assignment's `name` is a string, `id`
  an integer and `due_at` an optional string. A description is modelled as
  absent or a string, so other falsy values are not modelled.
- `escapeHtml` is modelled on strings only. A non-string truthy argument
  (a number, say) is not modelled.
