# Goal-tracking server: a Dafny model of its domain logic

The server keeps **topics**, each with **subtopics**. A subtopic is a repeatable task with a
reps goal (`reps_goal`), a count of completed reps (`reps_completed`) and a money amount
(`goal_amount`) paid out pro rata as reps are completed. A topic's earnings are the sum of
its subtopics' earnings. Its completion percentage is its completed reps over its goal reps.
The dashboard adds up every topic's rounded earnings and reports progress towards a
**global goal**. The one guarded state change is **rep logging**, which moves one
subtopic's count by exactly one and keeps it within `[0, reps_goal]`.

The model lifts this logic out of the HTTP handlers in `server.js`:

- `basics.dfy` (`Basics`): optional values, request results, `IndexOf`, `Distinct`.
- `jsmath.dfy` (`JsMath`): `Math.round` and `parseInt` over exact reals.
- `records.dfy` (`Records`): the table rows, the bounds invariant and the "raised reps" relation.
- `stats.dfy` (`Stats`): the earnings and completion calculator.
- `views.dfy` (`Views`): the row-to-response transforms, with their default filling.
- `requests.dfy` (`Requests`): request bodies, plus the create defaults and partial-update rules.
- `tables.dfy` (`Tables`): the store, made of both tables in creation order, an id generator and the global goal.
  It also holds the well-formedness invariant and a topic's embedded subtopic list.
- `api.dfy` (`Api`): the read, create and update endpoints, and setting the global goal.
- `reps.dfy` (`Reps`): the rep-logging transition.
- `dashboard.dfy` (`Dashboard`): the dashboard aggregation.
- `categories.dfy` (`Categories`): category de-duplication.

Conventions:
- A request-body field is `None` when the client left it out.
- A NULLable column is an `Option`.
- Money is a `real` and rep counts are `int`s.
- Every mutating endpoint is a function from a store to a `Step`, which pairs the new store with the answer.
- Persistence is the abstract store. Nothing else is a parameter: the model has no clock, randomness or network.

### Completed reps are bounded only by rep logging

A subtopic is meant to satisfy `0 <= reps_completed <= reps_goal` at all times, and the
figures above rely on it. The code enforces this only when logging reps (server.js:417-420). Creating a
subtopic (server.js:306-307) and updating one (server.js:363-364) copy whatever counts the
client sends. The model follows the code:

- `Reps.LogRepsKeepsBounds` proves that rep logging preserves the bound.
- `Requests.WritesCanBreakRepBounds` shows that creation and update do not.

The rate lock `is_money_per_5_reps_locked` is likewise not a guard. A topic update writes a
supplied rate whatever the lock says (server.js:253), as `Requests.RateLockNotEnforced` shows.

## Model

| member | source | states |
|---|---|---|
| `JsMath.Round` | server.js:128-129 | `Math.round` gives the integer within one half of its argument, and a half rounds up. |
| `JsMath.ParseInt` | server.js:106 | Reading the stored goal keeps its integer part: it truncates toward zero and is non-negative for a non-negative setting. |
| `Stats.Earned` | server.js:25-29 | A subtopic earns nothing unless its reps goal and amount are both positive (a NULL amount counts as not positive). Otherwise its earnings are proportional, `earned × reps_goal = reps_completed × goal_amount`. At `reps_completed = reps_goal` it earns exactly the amount. Within the bounds it earns between 0 and the amount. |
| `Stats.EarnedMonotone` | server.js:25-29 | More completed reps never earn less. |
| `Stats.Percent` | server.js:38 | When the whole is positive, the result is `part / whole × 100` rounded to the nearest integer, a half rounding up. It is 0 when the whole is not positive and 100 when the part equals the whole. It lies in [0, 100] when `0 <= part <= whole`. |
| `Stats.PercentMonotone` | server.js:38 | A larger part never gives a smaller percentage. |
| `Stats.CalculateTopicStats` | server.js:31-42 | No subtopics give completion 0 and earnings 0. Earnings are the sum of the per-subtopic earned amounts. When the goal total is positive, completion is `100 × Σcompleted / Σgoal` rounded to the nearest integer. Otherwise it is 0. Under the bounds invariant, completion lies in [0, 100] and earnings lie between 0 and the total payout. |
| `Stats.TotalsPermutation` | server.js:36-39 | The completed, goal and earned totals do not depend on the order of the subtopics. |
| `Stats.TopicStatsOrderIndependent` | server.js:31-42 | Two listings of the same subtopics give the same topic figures. |
| `Stats.TotalsInBounds` | server.js:36-39 | If every subtopic is within its bounds, the completed total lies between 0 and the goal total. Earnings then lie between 0 and the payout total. |
| `Stats.TotalsMonotone` | server.js:36-39 | Raising completed reps leaves the goal total unchanged and never lowers the completed or earned total. |
| `Stats.TopicStatsMonotone` | server.js:31-42 | Raising completed reps never lowers a topic's completion or earnings. |
| `Stats.OneMoreRepMonotone` | server.js:25-42 | One more completed rep on any one subtopic never lowers its topic's completion or earnings. |
| `Stats.WorkedExample` | server.js:31-42 | Two subtopics, 9 of 18 reps on 100 and 0 of 10 on 50, give completion 32 and earnings 50. |
| `Views.ToTopicView` | server.js:44-67 | Id, title, category and the two rate fields are passed through. NULL notes read as `''` and NULL urls as `[]`. The response lists one subtopic view per subtopic, in order. Completion is the topic's completion figure. Earnings are within one half of the exact sum. A topic without subtopics shows 0 and 0. Under the bounds invariant, completion lies in [0, 100] and earnings are non-negative. |
| `Views.SubtopicViewLosesOnlyDefaults` | server.js:69-77 | Two rows of one topic with the same subtopic view differ at most in NULL versus empty notes or urls. |
| `Views.ToSubtopicView` | server.js:69-77 | Id, title, reps and amount are passed through. NULL notes read as `''` and NULL urls as `[]`. |
| `Requests.NewTopicRow` | server.js:191-198 | A new topic stores the title and category given, and notes and urls defaulted to empty. A rate given as absent or 0 becomes 50, so a new topic never has a zero rate. The lock is set only when `true` is given. |
| `Requests.NewSubtopicRow` | server.js:303-311 | A new subtopic gets a reps goal given as absent or 0 replaced by 18, so a new subtopic never has a zero goal. Absent completed reps default to 0, and notes and urls default to empty. The amount is stored as given. |
| `Requests.PatchTopic` | server.js:248-254 | A supplied field takes the supplied value and every other field keeps its old value. The id never changes. An empty title or category counts as not supplied, while empty notes are supplied. |
| `Requests.PatchSubtopic` | server.js:361-367 | The same for subtopics: only supplied fields change, an empty title is ignored, and the id and owning topic never change. |
| `Requests.PatchTopicComposes` | server.js:248-254 | Two successive updates equal one update with the later body laid over the earlier. Repeating an update changes nothing. |
| `Requests.NotesOnlyPatch` | server.js:248-254 | An update with only notes, or with notes plus an empty title and category, changes the notes and nothing else. |
| `Requests.EchoedSubtopicIsUnchanged` | server.js:361-367 | Writing back every field of a subtopic's view leaves the row unchanged when its notes and urls are not NULL. |
| `Requests.EchoedNullNotesBecomeEmpty` | server.js:361-367 | Writing back the view of a row with NULL notes stores empty notes. |
| `Requests.TopicRepostIsNoOp` | server.js:191-198 | Updating a new topic with the body it was created from changes nothing, unless that body gave a zero rate. A zero rate was defaulted at creation but is written by the update. |
| `Requests.SubtopicRepostIsNoOp` | server.js:303-311 | The same for subtopics, with a zero reps goal as the exception. |
| `Requests.WritesCanBreakRepBounds` | server.js:363-364 | Neither creating nor updating a subtopic keeps completed reps within the goal. |
| `Requests.RateLockNotEnforced` | server.js:248-254 | On a locked topic a supplied rate still replaces the stored one, and the lock stays set. |
| `Tables.Children` | server.js:111-114 | A topic's embedded subtopic list holds exactly the subtopics whose owner is that topic, and never more rows than the table. |
| `Tables.ChildrenCounts` | server.js:111-114 | A topic's list holds each of the topic's rows exactly as often as the table does, and no row of another topic. So no child is counted twice. |
| `Api.GetTopic` | server.js:214-240 | An existing topic answers with the view of the first row carrying that id, over that topic's subtopics. An unknown id answers 404 "Topic not found". |
| `Api.GetSubtopic` | server.js:330-353 | An existing subtopic answers with the view of the first row carrying that id. An unknown id answers 404 "Sub-topic not found". |
| `Api.CreateTopic` | server.js:185-212 | Creation always succeeds. It appends exactly the row the create mapping builds from the body, under a fresh id, and advances the id generator. Nothing else changes. The answer is that row's view, with no subtopics, earnings 0 and completion 0. The store stays well-formed. |
| `Api.UpdateTopic` | server.js:242-279 | An unknown topic gives 404 with the store unchanged. Otherwise the addressed row is replaced by its partial update and every other row stays as it was. The answer is the updated row's view over its subtopics, and the store stays well-formed. |
| `Api.CreateSubtopic` | server.js:282-328 | An unknown topic gives 404 with the store unchanged. Otherwise it appends exactly the row the create mapping builds from the body, owned by that topic, under a fresh id. The answer is that row's view, and the store stays well-formed. |
| `Api.UpdateSubtopic` | server.js:355-392 | An unknown subtopic gives 404 with the store unchanged. Otherwise the addressed row is replaced by its partial update and every other row stays as it was. The answer is the updated row's view, and the store stays well-formed. |
| `Api.ReadAfterUpdateTopic` | server.js:214-279 | Reading a topic back after an update answers exactly what the update answered, including the 404. |
| `Api.ReadAfterUpdateSubtopic` | server.js:330-392 | Reading a subtopic back after an update answers exactly what the update answered, including the 404. |
| `Api.ReadAfterCreateTopic` | server.js:185-240 | In a well-formed store a new topic reads back as the view its creation answered, with no subtopics. |
| `Api.ReadAfterCreateSubtopic` | server.js:282-353 | In a well-formed store a new subtopic reads back as the view its creation answered. |
| `Api.SetGlobalGoal` | server.js:148-169 | A goal that is absent or negative gives 400 "Invalid goal amount" with no change. Otherwise the goal is replaced and echoed back. |
| `Reps.Delta` | server.js:399-401 | Only the numbers +1 and -1 are accepted as a step. |
| `Reps.LogReps` | server.js:394-460 | A step other than ±1 is refused with 400 before any lookup. An unknown subtopic gives 404. A step leaving `[0, reps_goal]` gives 400 "Rep limit reached.". Every refusal leaves the store unchanged. Otherwise only the addressed subtopic's completed reps change, by the step, and into bounds. The store changes exactly when the guard accepts. A successful answer shows the moved row and its owning topic, recomputed over the new table. If the owning topic is missing, an accepted step keeps its write and answers 500 "Internal server error". |
| `Reps.LogRepsWellFormed` | server.js:434-446 | In a well-formed store an accepted step always finds its topic again, so the request succeeds exactly when the guard accepts. The store stays well-formed. |
| `Reps.ReadAfterLogReps` | server.js:434-454 | After a successful rep log, reading the subtopic and its topic back answers exactly the views the request answered. |
| `Reps.LogRepsKeepsBounds` | server.js:417-428 | Rep logging preserves the bounds invariant of every subtopic. |
| `Reps.LogRepsUndo` | server.js:417-428 | Within the bounds, a logged +1 is undone by -1 and a -1 by +1. The second step is accepted and restores the store exactly. |
| `Reps.LogRepsDirection` | server.js:417-428 | Logging +1 only raises completed reps and logging -1 only lowers them. |
| `Reps.LogRepNeverLowersTopics` | server.js:434-449 | After +1 no topic shows lower earnings or completion. After -1 none shows higher. |
| `Reps.RepsRefusals` | server.js:399-420 | A step of 2 is refused. So is -1 at zero completed reps, and +1 at the goal. |
| `Dashboard.Summarize` | server.js:122-131 | A topic summary keeps id, title and category. Its completion is the topic's completion figure. Its earnings lie within one half of the topic's exact earnings. Under the bounds, earnings are non-negative and completion lies in [0, 100]. |
| `Dashboard.GetDashboard` | server.js:93-141 | The goal is the parsed setting. There is one summary per topic, in creation order. Current earnings are the sum of the rounded topic earnings. When the goal is positive, progress is `100 × current / goal` rounded to the nearest integer. Otherwise progress is 0. Under the bounds, earnings and progress are non-negative, and progress is at most 100 while earnings do not exceed the goal. |
| `Dashboard.RoundingDrift` | server.js:128-138 | Rounding each topic before adding moves current earnings at most half a unit per topic from the exact total. |
| `Dashboard.SumEarningsMonotone` | server.js:122-133 | Raising completed reps anywhere never lowers current earnings. |
| `Dashboard.DashboardMonotone` | server.js:122-134 | With the same topics and goal, raising completed reps never lowers current earnings or progress. |
| `Dashboard.LoggingARepNeverLowersDashboard` | server.js:417-428 | Logging +1 never lowers the dashboard's current earnings or progress. |
| `Dashboard.GoalReadsBack` | server.js:99-106 | A whole-number goal set through the API is the goal the dashboard reports. |
| `Categories.Dedup` | server.js:474 | The answer holds exactly the labels of the input, each once, in the order of their first occurrence. |
| `Categories.DistinctCategories` | server.js:474 | A single pass with a set of labels already seen yields exactly `Dedup` of the column. |
| `Categories.CategoriesCoverTopics` | server.js:465-474 | In whatever order the column arrives, the answer lists every topic's category exactly once and nothing else. |
| `Categories.DedupIdempotent` | server.js:474 | De-duplicating twice changes nothing. |

## Left out

- HTTP plumbing is not modelled: Express routing, CORS, JSON parsing, the error middleware, request logging, `/health`, signal handlers and `app.listen`.
  These are I/O with no domain logic.
- Store failures are not modelled. Any failure other than not-found becomes a 500, but the store here is total, so these cannot happen.
  One 500 that follows from data is modelled: rep logging writes first and then re-reads the owning topic, and the answer is 500 if the topic is missing, with the write kept.
  `Reps.LogRepsWellFormed` shows this cannot happen in a well-formed store.
- `Api.SetGlobalGoal`: the `global_settings` row named `global_goal` is assumed to exist; the store always carries a global goal.
  Nothing in the server creates that row. Without it, `GET /api/dashboard` answers 500 because `.single()` finds no row (server.js:96-104).
  `PUT /api/dashboard/global-goal` then answers success but stores nothing, because an update matching no row is not an error (server.js:155-164).
  `Dashboard.GoalReadsBack` holds only while the row exists.
- `Tables.Children`: the query gives no order for the embedded `subtopics (*)` list, so the model's choice of table order is an assumption.
  Earnings and completion do not depend on that order (`Stats.TopicStatsOrderIndependent`), but the order of the subtopic views in a topic response does.
- Lookup by id is by first match. An id matching several rows, which the store would reject, cannot happen in a well-formed store.
- `GET /api/topics` is not modelled. It returns the topic table unchanged and has no logic of its own.
- The read-then-write race in rep logging is not modelled. Each request is one atomic step.
- Request bodies are typed. JSON `null` fields, values of the wrong type, `NaN` and fractional rep counts are not modelled.
  A `reps` value that is not a number is modelled as absent, which is refused the same way.
- Numbers are exact reals, so IEEE-754 rounding is not modelled. `JsMath.Round` is the `Math.round` of the exact value.
- `JsMath.ParseInt`: does not model `parseInt` on a stored goal that JavaScript renders with an exponent.
  That happens at or above 10^21, and also for positive values below 10^-6: `parseInt(5e-7)` is 5, where the model gives 0.
  A setting that is not a number (`NaN`) is not modelled either.
- `Categories.DistinctCategories`: takes the category column in the order the store delivers it. The `order('category')` sort depends on the store's collation and is not modelled.
- Status 201 versus 200 is not modelled, and neither are the success message wrappers. A successful answer carries only its payload.
- The effect of an update request that supplies no field is not modelled. The store's behaviour on an empty update is not part of this model; here it changes nothing.
- The `!subtopic` and `!subtopics` guards are not modelled, because the lists are always present here.
- The browser visualisation under `glowing-sphere/` is not modelled. It is WebGL scene setup, pointer handlers and time-driven colour cycling.
