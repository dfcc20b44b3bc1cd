# DBService — a verified model of the data service

This project models `DBService`, the data layer of a physics e-learning platform that keeps
users, curricula, quizzes, interactive-lesson scenes, student progress, analytics events,
forum posts and settings in remote database tables. Every table that the methods of the class
`Db.DBService` read or write becomes a field of the class:
- Sequences of rows, in storage order, for the tables that the operations scan or filter:
  `lesson_scenes`, `lessons`, `units`, `questions`, `quizzes`, `quiz_questions` and
  `student_interaction_events`.
- Maps, for the tables that the operations only read or write under one key:
  - `student_lesson_progress`, keyed by `(student_id, lesson_id)`;
  - `profiles` and `forum_posts`, keyed by id;
  - `settings`, keyed by its key.

The curriculum reader `Curriculum.GetCurriculum` is different. It is a function of the rows its
joined query returns, and those rows are not tied to the class's fields. The
server-generated ids come from one counter (`FreshId(n)` is `"id-"` followed by `n` in
decimal). The remote client itself is the boundary and is not modelled.

The modules follow the program's structure:

- `Common`, `Seqs`: Option/Result, JavaScript truthiness, `a || b` on strings, and sequence
  helpers. `Dedup` models `new Set(xs)` iterated in first-insertion order.
- `Ids`: decimal rendering and parsing of the counter, and the temporary-id rule of the save
  operations. An id updates in place when it is present and carries none of the
  client-side temporary prefixes: `scene_`, `l_`, `u_`, or `temp`/`q_`. Quizzes test only
  `quiz_`.
- `Tables`: a table held as rows in storage order, looked up with `.eq('id', id)`, plus the
  facts that keep ids unique across a rewrite, an append and a delete.
- `Analytics`: the reducer of `getLessonAnalytics`.
  - The imperative method `Aggregate` runs the `forEach` loop with mutable counters and key
    orders. It is proved equal to the reference function `AnalyticsOf`.
  - The lemmas about `AnalyticsOf` state that visit counts add up and are exact, that the
    decision counts are exact, and when the `from__text__to` key decodes to its own triple.
- `Profiles`: `mapProfileToUser`, the row `saveUser` writes, the `@`-routing lookup of
  `getUser`, and the pure part of `toggleLessonComplete`.
- `Sorting`, `Curriculum`: the stable numeric sorts of `getCurriculum`.
- `Quizzes`: the `quiz_questions` relation table.
- `Settings`: the brochure defaults and the right-biased merge.
- `Db`: the rows, the class and its methods.

The key round trip holds under two conditions:
- no component contains `__`;
- the source scene and the decision text do not end in `_`, because a trailing `_` merges
  with the separator.

`TrailingUnderscoreMisdecodes` shows both failures on concrete keys. A missing destination
is SQL NULL in a fetched row, and the template literal renders it as the text `null`.
`Render(None)` follows the code here.

The code counts a decision even when its event has no destination. For a decision at B that
reaches no scene, it records the key `B__finish__null`. A lesson walked A -"next"-> B and then
ended at B with "finish" therefore gives two decision entries, not only `(A, next, B)`. The
model follows the code, and `TerminalDecisionIsCounted` shows this on that two-event lesson.

## Model

| member | source | states |
|---|---|---|
| Analytics.Aggregate | services/db.ts:661-688 | The loop that fills the visit and decision records and the AI counter produces exactly the reference analytics `AnalyticsOf` of the fetched events |
| Analytics.Step | services/db.ts:670-677 | One event taken into the records keeps them the tallies of the events seen so far: visits of destinations, counts of decision keys in first-insertion order, and the AI-help count |
| Analytics.Tally | services/db.ts:671-674 | `counter[x] = (counter[x] \|\| 0) + 1` leaves the counter holding the occurrences of every key seen, with keys in first-insertion order |
| Analytics.AnalyticsOf | services/db.ts:676-686 | `live_events` is a prefix of the fetched events of length min(50, n); `ai_help_requests` is the number of events whose type is exactly `ai_help_requested` |
| Analytics.VisitCountsAddUp | services/db.ts:666-671 | The visit counts sum to the number of events with a non-empty destination |
| Analytics.SceneVisitsExact | services/db.ts:666-671 | Visit entries have distinct scene ids, each count is the number of events arriving there (at least 1), every destination has an entry and every entry is a destination |
| Analytics.InDestinations | services/db.ts:671 | A scene is among the recorded destinations iff some event has it as its non-empty destination |
| Analytics.DecisionCountsExact | services/db.ts:672-675 | Every event with a source and a decision text has its key's entry; every entry belongs to such an event; the counts sum to the number of such events |
| Analytics.DecodeEncodeKey | services/db.ts:673 | Splitting the key on `__` gives back the source, text and destination when none contains `__` and the first two do not end in `_` |
| Analytics.TrailingUnderscoreMisdecodes | services/db.ts:673 | A text ending in `_` decodes wrongly, and two different triples can share one key |
| Analytics.EncodeKeyInjective | services/db.ts:673 | Under the decoding condition, different triples get different keys |
| Analytics.KeyCountIsChoiceCount | services/db.ts:672-675 | Under the decoding condition, the count of a key is the number of decision events with exactly that triple |
| Analytics.FaithfulDecisionCounts | services/db.ts:679-684 | Under the decoding condition, every decision event's decoded triple with its count is an entry, and every entry is one of those |
| Analytics.FaithfulDecisionsDistinct | services/db.ts:679-684 | Under the decoding condition, no two decision entries share a triple |
| Analytics.VisitTitle | services/db.ts:680 | The title is the prefix of the scene id of length min(8, n) |
| Analytics.TerminalDecisionIsCounted | services/db.ts:672-675 | For the events A -"next"-> B and B -"finish"-> nothing, the visits are B once and the decisions are `(A, next, B)` and `(B, finish, null)`, once each |
| Analytics.ScenarioStreams | services/db.ts:671-673 | Those two events give the destinations `[B]` and the keys `A__next__B`, `B__finish__null` |
| Ids.FreshIdInjective | services/db.ts:219 | Different counter values give different ids, so an insert never reuses an id |
| Ids.FreshIdIsDurable | services/db.ts:606 | A returned durable id never carries a temporary prefix, so saving the result again updates in place |
| Tables.FindAfterDelete | services/db.ts:614 | After a delete the id finds nothing and every other id finds what it found before |
| Tables.FindAfterWrite | services/db.ts:607 | A row rewritten under its own id keeps ids unique and is found again |
| Tables.FindAfterAppend | services/db.ts:609 | A row appended under a new id keeps ids unique and is found again |
| Db.DBService.GetLessonScenesForBuilder | services/db.ts:584-594 | The scenes returned are exactly the stored scenes of that lesson |
| Db.DBService.GetLessonScene | services/db.ts:616-627 | The scene returned is stored under that id; nothing is returned only when no scene has it |
| Db.DBService.SaveLessonScene | services/db.ts:596-612 | A present id without `scene_` rewrites that row (an error when there is none); any other id inserts under a fresh id; the result is the input with the durable id and reads back |
| Db.DBService.DeleteLessonScene | services/db.ts:614 | The scene is gone and every other scene reads as before |
| Db.DBService.SaveLesson | services/db.ts:203-226 | The temporary-id rule with `l_`; an update rewrites only the sent columns and keeps `path_root_scene_id` |
| Db.DBService.SaveUnit | services/db.ts:228-246 | The temporary-id rule with `u_`; the stored order is `order \|\| 0`; the result has the durable id and no lessons |
| Db.DBService.UpdateUnitsOrder | services/db.ts:251-255 | After the loop the units are the stored units with each listed unit's order set to its position |
| Db.ReorderedMeaning | services/db.ts:251-255 | A listed unit's order is the position of its last listing, its other columns are untouched, and unlisted units are unchanged |
| Db.LastIndexOfDistinct | services/db.ts:252 | With distinct ids, the unit at position i gets order i |
| Db.DBService.SaveQuestion | services/db.ts:379-412 | The temporary-id rule with `temp` or `q_`; the result has grade `'12'` and subject `'Physics'` when the input has none |
| Db.QuestionOf | services/db.ts:398-411 | The returned question carries the stored row's id, text, kind, choices, correct choice, score and solution, and the input's grade and subject when truthy, else `'12'` and `'Physics'` |
| Db.DBService.GetQuizzes | services/db.ts:266-289 | Every stored quiz passing the grade filter is returned with its related question ids and total score 0, and nothing else |
| Db.SelectQuizzes | services/db.ts:267-268 | A quiz row is selected iff it is stored and, unless the grade is absent, empty or `all`, has that grade |
| Db.DBService.SaveQuiz | services/db.ts:331-358 | `quiz_` inserts under a fresh id and anything else updates; the quiz's relations become exactly its question ids, which read back in order while every other quiz keeps its own |
| Db.DBService.SetQuizQuestions | services/db.ts:351-355 | The quiz's relations become one per question id, in order; they read back as exactly those ids while every other quiz keeps its own |
| Quizzes.ReplaceThenRead | services/db.ts:351-355 | After replacing a quiz's relations, reading them gives exactly the new ids; every other quiz keeps its ids |
| Quizzes.IdsOf | services/db.ts:287 | A question id is listed for a quiz iff a relation row links them |
| Db.UpsertProgress | services/db.ts:629-639 | A row is written iff a scene is sent, because the NOT NULL scene column is checked before the conflict; over a stored row each sent field wins and each omitted field keeps its stored value; a new row takes NULL for the omitted ones; the row has the sent scene and the call's time |
| Db.DBService.SaveStudentLessonProgress | services/db.ts:629-639 | Without a scene nothing changes; with one, the pair (student, lesson) has a row holding the sent scene, the sent answers and files over the stored ones, and the time of the call; every other pair is unchanged |
| Db.DBService.LogStudentInteraction | services/db.ts:641-650 | Exactly one row is appended, with the given fields and no event type; earlier rows are unchanged |
| Db.LoggedEventEffect | services/db.ts:641-650 | A logged row joins the end of its lesson's events, never adds an AI-help request, and adds one visit iff it names a destination |
| Db.DBService.GetLessonAnalytics | services/db.ts:661-688 | The analytics of the lesson's events: at most 50 live events, each a stored event of that lesson |
| Db.LessonEvents | services/db.ts:662-664 | No more events are fetched than are stored |
| Db.LessonEventsMembers | services/db.ts:662-664 | An event is fetched iff it is a stored row of that lesson |
| Db.LessonEventsAppend | services/db.ts:662-664 | Fetching from two runs of rows gives the first run's events, then the second's: storage order is kept |
| Db.LessonEventsOfOne | services/db.ts:662-664 | A single row is fetched iff it belongs to the lesson |
| Profiles.MapProfileToUser | services/db.ts:20-46 | Id, email, role and last-seen are copied; the name is kept when truthy and is the default name otherwise; premium iff the status is exactly `premium`; a stored progress is kept and a missing one becomes the default progress |
| Profiles.LoadSaveLoad | services/db.ts:20-99 | A user loaded from any row, saved and loaded again, is unchanged except for its last-seen time |
| Profiles.SaveThenLoad | services/db.ts:70-99 | Loading a saved user gives the user back, stamped with the save time (and the default name for an empty name) |
| Profiles.LookupFinds | services/db.ts:50-68 | An identifier with `@` finds the only row with that email, otherwise the row with that id; nothing otherwise |
| Db.DBService.GetUser | services/db.ts:50-68 | A found user is the mapped row selected by id or email; without `@` a user is found iff the id is stored; with `@` iff exactly one row has that email |
| Db.DBService.SaveUser | services/db.ts:70-99 | The user's row is upserted and loads back as the saved user with the time of the call |
| Profiles.ToggleFlips | services/db.ts:1058-1066 | The lesson's membership flips, other lessons are kept, points move by ten, and the list has no duplicates |
| Profiles.ToggleTwice | services/db.ts:1058-1066 | Toggling twice restores the membership set and the points |
| Profiles.ToggleTwiceAbsent | services/db.ts:1058-1066 | Toggling an absent lesson twice on a duplicate-free list restores the progress exactly |
| Db.DBService.ToggleLessonComplete | services/db.ts:1054-1068 | No user, no change; otherwise the user saved back with the toggled progress, which then loads back |
| Curriculum.GetCurriculum | services/db.ts:147-167 | A failed query gives no curricula; otherwise one curriculum per fetched row, in fetched order, each keeping that row's id and title |
| Curriculum.CurriculumShaped | services/db.ts:147-167 | Each curriculum keeps its id and title; its units are its row's units, ordered by `order` (missing as 0) and stable; each unit's lessons are ordered by creation time; a failed query gives no curricula |
| Curriculum.LessonsShaped | services/db.ts:160 | A unit's lessons are exactly its row's lessons, ties kept in fetched order |
| Sorting.SortByCorrect | services/db.ts:158 | The sort is ordered by key, a permutation, and stable |
| Sorting.MapSortBy | services/db.ts:158-161 | Sorting then shaping equals shaping then sorting, as shaping keeps the key |
| Settings.MergeWithDefaults | services/db.ts:708-734 | Every default and every stored field is present; stored fields win; others keep their default |
| Settings.MergeIdempotent | services/db.ts:733 | Merging a merged document again changes nothing; with nothing stored the result is the defaults |
| Db.DBService.GetSetting | services/db.ts:692-695 | A document is returned iff one is stored under the key, and it is that document |
| Db.DBService.SaveSetting | services/db.ts:697-699 | The document reads back under its key and every other key is unchanged |
| Db.DBService.GetBrochureSettings | services/db.ts:708-734 | All default fields are present, stored fields win, and the rest keep their defaults |
| Db.DBService.SaveBrochureSettings | services/db.ts:735 | After saving, the brochure reads as the defaults overridden by the saved fields |
| Db.DBService.AddForumReply | services/db.ts:936-942 | A missing post is left alone; otherwise the post's replies (none when NULL) gain the reply at the end, with id `rep_<now>` and timestamp `now` |

## Left out

- Realtime subscriptions (`subscribeToUser`, `subscribeToLessonInteractions` and others) are push channels and callbacks.
- Storage (`uploadAsset`, `listAssets`, `deleteAsset`) is a remote service.
- Invoices and financial statistics sum fractional amounts.
- The thin field mappers (`mapAttempt`, `mapInvoice`, live sessions, forum mappers) and the other settings getters carry no invariant.
- Navigation through scene decisions and premium gating do not appear in the modelled service.
- The wall clock is a parameter `now`. Timestamps are integers, where the source writes ISO strings, and reply ids made at the same millisecond collide.
- Row and JSON columns the operations only pass through are left out (phone, grade, photo, difficulty, image and the like). Scene content, decisions and lesson content are opaque text.
- Schema constraints are not modelled: foreign keys, cascades, and the `(quiz_id, question_id)` primary key, which makes a save with a repeated question id fail its relation insert. One constraint is modelled. `Db.UpsertProgress` uses the NOT NULL on `student_lesson_progress.current_scene_id` (components/FirestoreRulesFixer.tsx:168).
- The `student_lesson_progress` table is assumed to have an `uploaded_files` column. The schema script (components/FirestoreRulesFixer.tsx:164-172) defines none. Against that schema, an upsert that sends `uploadedFiles` would be rejected, and because its error is not checked (services/db.ts:638), nothing would be stored. A save that leaves the field out sends no such column, since JSON drops an omitted field.
- `Db.DBService.SaveStudentLessonProgress`: omitted fields are `None`, but the student and lesson ids are always present, because they form the conflict key. An explicit `null` is not told apart from an omitted field.
- `Db.DBService.SaveQuestion`: of the `Partial<Question>` argument, only grade and subject may be missing. The other fields are always given, so an update that leaves a column out is not modelled.
- Setting documents are modelled only as JSON objects, which are always truthy. `getSetting` returns `data?.value || null`, so a stored `false`, `0` or `""` would come back as `null`. The model cannot express such a value.
- `Curriculum.GetCurriculum` is not linked to the class's `units` and `lessons` fields. Its input is the result of the joined query.
- `Object.entries` lists integer-like keys first. The model keeps insertion order, which is what the UUID scene ids get.
- Query results without an `order` clause are modelled in storage order. The curricula's own `created_at` order is taken as the order of the fetched rows.
- Failed remote calls other than a missing row under `.single()` are not modelled. A failed `getCurriculum` query is the `None` input of `Curriculum.GetCurriculum`.
- Concurrency is not modelled; `addForumReply`'s read-modify-write is one step.
- `Db.DBService.GetLessonAnalytics` renders serial event ids in decimal, as `toString()` does.
- `Analytics.DecodeEncodeKey`: the round trip is stated only for keys that decode faithfully. For other keys, `TrailingUnderscoreMisdecodes` exhibits the wrong decoding.
- `Db.DBService.SaveQuiz`: an update of a missing quiz row changes no quiz row, because the update's error is not checked. The relations are still replaced.
- A missing destination renders as `null`, the text a SQL NULL gives in a template literal. It does not render as `undefined`.
- The live events are the first fifty in fetch order, as the code slices them, not the most recent.
