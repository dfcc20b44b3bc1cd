/** The data service `DBService`: every remote table it touches held in memory, and its
    operations as methods that change those tables or functions that read them. */
module Db {
  import opened Common
  import opened Seqs
  import opened Ids
  import opened Tables
  import opened Analytics
  import opened Profiles
  import opened Quizzes
  import opened Settings

  // ---- Rows and records (JSON columns are opaque text) ----

  /** A lesson scene, as the builder holds it and as `lesson_scenes` stores it. */
  datatype LessonScene = LessonScene(
    id: string, lessonId: string, title: string, content: string, decisions: string, isPremium: bool)

  /** A lesson as the editor holds it. */
  datatype Lesson = Lesson(
    id: string, title: string, kind: string, duration: string, content: string,
    templateType: string, universalConfig: string, isPinned: bool)

  /** A row of `lessons`; `path_root_scene_id` is not among the columns `saveLesson` writes. */
  datatype LessonRecord = LessonRecord(
    id: string, unitId: string, title: string, kind: string, duration: string, content: string,
    templateType: string, universalConfig: string, isPinned: bool, pathRootSceneId: Option<string>)

  /** A unit as the editor holds it. */
  datatype Unit = Unit(id: string, title: string, description: string, order: Option<int>, lessons: seq<Lesson>)

  datatype UnitRecord = UnitRecord(id: string, curriculumId: string, title: string, description: string, order: int)

  /** A question as the editor sends it (`Partial<Question>`: grade and subject may be absent). */
  datatype QuestionInput = QuestionInput(
    id: string, text: string, kind: string, choices: string, correctChoiceId: string, score: int,
    solution: string, grade: Option<string>, subject: Option<string>)

  datatype QuestionRecord = QuestionRecord(
    id: string, text: string, kind: string, choices: string, correctChoiceId: string, score: int, solution: string)

  datatype Question = Question(
    id: string, text: string, kind: string, choices: string, correctChoiceId: string, score: int,
    solution: string, grade: string, subject: string)

  datatype Quiz = Quiz(
    id: string, title: string, description: string, grade: string, subject: string,
    isPremium: bool, totalScore: int, questionIds: seq<string>)

  datatype QuizRecord = QuizRecord(
    id: string, title: string, description: string, grade: string, subject: string, isPremium: bool)

  /** What `saveStudentLessonProgress` is given (`Partial<StudentLessonProgress>`): a field the
      caller leaves out is `None` and is not sent. */
  datatype StudentLessonProgress = StudentLessonProgress(
    studentId: string, lessonId: string, currentSceneId: Option<string>, answers: Option<string>,
    uploadedFiles: Option<seq<string>>)

  /** A row of `student_lesson_progress`, stamped with the time of the last save; the scene is
      NOT NULL, answers and files may be NULL. */
  datatype ProgressRecord = ProgressRecord(
    studentId: string, lessonId: string, currentSceneId: string, answers: Option<string>,
    uploadedFiles: Option<seq<string>>, updatedAt: int)

  /** What `logStudentInteraction` is given. */
  datatype StudentInteraction = StudentInteraction(
    studentId: string, lessonId: string, fromSceneId: Option<string>, toSceneId: Option<string>,
    decisionText: Option<string>)

  /** A row of `student_interaction_events`, with its serial id. */
  datatype EventRecord = EventRecord(
    id: nat, studentId: string, lessonId: string, fromSceneId: Option<string>, toSceneId: Option<string>,
    decisionText: Option<string>, eventType: Option<string>)

  datatype Reply = Reply(id: string, authorName: string, content: string, timestamp: int)

  /** A row of `forum_posts`; `replies` is a JSON list column that may be NULL. */
  datatype ForumPost = ForumPost(id: string, title: string, content: string, replies: Option<seq<Reply>>)

  function SceneId(s: LessonScene): string { s.id }
  function LessonRecordId(l: LessonRecord): string { l.id }
  function UnitRecordId(u: UnitRecord): string { u.id }
  function QuestionRecordId(q: QuestionRecord): string { q.id }
  function QuizRecordId(q: QuizRecord): string { q.id }

  // ---- Identifiers handed out by the store ----

  /** No row already carries an identifier the store has yet to hand out. */
  ghost predicate IssuedBefore<T>(rows: seq<T>, idOf: T -> string, next: nat) {
    forall n, i :: next <= n && 0 <= i < |rows| ==> idOf(rows[i]) != FreshId(n)
  }

  /** A table with unique ids none of which is yet to be handed out. */
  ghost predicate WellKeyed<T>(rows: seq<T>, idOf: T -> string, next: nat) {
    UniqueIds(rows, idOf) && IssuedBefore(rows, idOf, next)
  }

  /** Inserting a row under the next fresh id keeps the table well keyed, and the row is
      found under that id. */
  lemma InsertFresh<T>(rows: seq<T>, idOf: T -> string, row: T, next: nat)
    requires WellKeyed(rows, idOf, next) && idOf(row) == FreshId(next)
    ensures WellKeyed(rows + [row], idOf, next + 1)
    ensures Find(rows + [row], idOf, idOf(row)) == Some(row)
  {
    assert idOf(row) !in Map(rows, idOf) by {
      forall i | 0 <= i < |rows| ensures Map(rows, idOf)[i] != idOf(row) { }
    }
    FindAfterAppend(rows, idOf, row);
    forall n, i | next + 1 <= n && 0 <= i < |rows + [row]| ensures idOf((rows + [row])[i]) != FreshId(n) {
      if i == |rows| { FreshIdInjective(n, next); }
    }
  }

  /** Rewriting a row under its own id keeps the table well keyed, and the row is found again. */
  lemma WriteInPlace<T>(rows: seq<T>, idOf: T -> string, i: nat, row: T, next: nat)
    requires WellKeyed(rows, idOf, next) && i < |rows| && idOf(row) == idOf(rows[i])
    ensures WellKeyed(rows[i := row], idOf, next)
    ensures Find(rows[i := row], idOf, idOf(row)) == Some(row)
  {
    FindAfterWrite(rows, idOf, i, row);
  }

  // ---- Pure parts of the operations ----

  /** The columns `saveLesson` writes, over an existing row. */
  function WriteLesson(r: LessonRecord, l: Lesson, unitId: string): LessonRecord {
    r.(unitId := unitId, title := l.title, kind := l.kind, duration := l.duration, content := l.content,
       templateType := l.templateType, universalConfig := l.universalConfig, isPinned := l.isPinned)
  }

  function NewLesson(id: string, l: Lesson, unitId: string): LessonRecord {
    LessonRecord(id, unitId, l.title, l.kind, l.duration, l.content, l.templateType, l.universalConfig,
                 l.isPinned, None)
  }

  /** `unit.order || 0` */
  function UnitOrderOf(u: Unit): int { u.order.GetOr(0) }

  function WriteUnit(id: string, u: Unit, curriculumId: string): UnitRecord {
    UnitRecord(id, curriculumId, u.title, u.description, UnitOrderOf(u))
  }

  function WriteQuestion(id: string, q: QuestionInput): QuestionRecord {
    QuestionRecord(id, q.text, q.kind, q.choices, q.correctChoiceId, q.score, q.solution)
  }

  /** The question `saveQuestion` returns: the stored row, with grade `'12'` and subject
      `'Physics'` when the input's are missing or empty. */
  function QuestionOf(r: QuestionRecord, q: QuestionInput): (out: Question)
    ensures out.id == r.id && out.text == r.text && out.kind == r.kind && out.choices == r.choices
    ensures out.correctChoiceId == r.correctChoiceId && out.score == r.score && out.solution == r.solution
    ensures Truthy(q.grade) ==> out.grade == q.grade.value
    ensures !Truthy(q.grade) ==> out.grade == "12"
    ensures Truthy(q.subject) ==> out.subject == q.subject.value
    ensures !Truthy(q.subject) ==> out.subject == "Physics"
  {
    Question(r.id, r.text, r.kind, r.choices, r.correctChoiceId, r.score, r.solution,
             OrDefault(q.grade.GetOr(""), "12"), OrDefault(q.subject.GetOr(""), "Physics"))
  }

  function WriteQuiz(id: string, q: Quiz): QuizRecord {
    QuizRecord(id, q.title, q.description, q.grade, q.subject, q.isPremium)
  }

  /** `grade && grade !== 'all'`: whether `getQuizzes` filters by grade at all. */
  predicate FiltersByGrade(grade: Option<string>) {
    Truthy(grade) && grade.value != "all"
  }

  /** The quiz rows `getQuizzes` selects, in storage order. */
  function SelectQuizzes(rows: seq<QuizRecord>, grade: Option<string>): (r: seq<QuizRecord>)
    ensures forall q :: q in r <==> q in rows && (FiltersByGrade(grade) ==> q.grade == grade.value)
  {
    if rows == [] then []
    else
      var rest := SelectQuizzes(rows[1..], grade);
      assert forall q :: q in rows <==> q == rows[0] || q in rows[1..];
      if !FiltersByGrade(grade) || rows[0].grade == grade.value then [rows[0]] + rest else rest
  }

  function QuizOf(r: QuizRecord, mappings: seq<Relation>): Quiz {
    Quiz(r.id, r.title, r.description, r.grade, r.subject, r.isPremium, 0, IdsOf(mappings, r.id))
  }

  /** The scenes of one lesson, in storage order. */
  function ScenesOf(scenes: seq<LessonScene>, lessonId: string): (r: seq<LessonScene>)
    ensures forall s :: s in r <==> s in scenes && s.lessonId == lessonId
  {
    if scenes == [] then []
    else
      var rest := ScenesOf(scenes[1..], lessonId);
      assert forall s :: s in scenes <==> s == scenes[0] || s in scenes[1..];
      if scenes[0].lessonId == lessonId then [scenes[0]] + rest else rest
  }

  /** The upsert on `(student_id, lesson_id)` of the fields sent. The row proposed for insertion
      must satisfy the NOT NULL `current_scene_id` before any conflict is looked at, so a payload
      without a scene is rejected whether or not a row is stored. Otherwise, over a stored row
      every field sent wins and every field left out keeps its stored value, and a new row takes
      NULL for what is left out. */
  function UpsertProgress(existing: Option<ProgressRecord>, p: StudentLessonProgress, now: int): (r: Option<ProgressRecord>)
    ensures r.Some? <==> p.currentSceneId.Some?
    ensures r.Some? ==> && r.value.studentId == p.studentId && r.value.lessonId == p.lessonId
                        && r.value.currentSceneId == p.currentSceneId.value && r.value.updatedAt == now
    ensures r.Some? && p.answers.Some? ==> r.value.answers == p.answers
    ensures r.Some? && p.uploadedFiles.Some? ==> r.value.uploadedFiles == p.uploadedFiles
    ensures r.Some? && existing.Some? && p.answers.None? ==> r.value.answers == existing.value.answers
    ensures r.Some? && existing.Some? && p.uploadedFiles.None? ==> r.value.uploadedFiles == existing.value.uploadedFiles
    ensures r.Some? && existing.None? ==> r.value.answers == p.answers && r.value.uploadedFiles == p.uploadedFiles
  {
    if p.currentSceneId.None? then None
    else
      match existing
      case Some(row) =>
        Some(ProgressRecord(p.studentId, p.lessonId, p.currentSceneId.value,
                            if p.answers.Some? then p.answers else row.answers,
                            if p.uploadedFiles.Some? then p.uploadedFiles else row.uploadedFiles, now))
      case None =>
        Some(ProgressRecord(p.studentId, p.lessonId, p.currentSceneId.value, p.answers, p.uploadedFiles, now))
  }

  /** An event row as `getLessonAnalytics` sees it: `{ ...e, id: e.id.toString() }`. */
  function EventOf(r: EventRecord): InteractionEvent {
    InteractionEvent(NatToString(r.id), r.studentId, r.lessonId, r.fromSceneId, r.toSceneId,
                     r.decisionText, r.eventType)
  }

  /** `select('*').eq('lesson_id', lessonId)`, in storage order. */
  function LessonEvents(rows: seq<EventRecord>, lessonId: string): (r: seq<InteractionEvent>)
    ensures |r| <= |rows|
  {
    if rows == [] then []
    else
      var last := rows[|rows| - 1];
      LessonEvents(rows[..|rows| - 1], lessonId) + (if last.lessonId == lessonId then [EventOf(last)] else [])
  }

  /** `e` is the view of a stored row of the lesson. */
  predicate FetchedFrom(rows: seq<EventRecord>, lessonId: string, e: InteractionEvent) {
    exists row :: row in rows && row.lessonId == lessonId && e == EventOf(row)
  }

  /** The fetched events are exactly the views of the stored rows of the lesson. */
  lemma {:induction false} LessonEventsMembers(rows: seq<EventRecord>, lessonId: string)
    ensures forall e :: e in LessonEvents(rows, lessonId) <==> FetchedFrom(rows, lessonId, e)
  {
    if rows != [] {
      var p := rows[..|rows| - 1];
      var last := rows[|rows| - 1];
      LessonEventsMembers(p, lessonId);
      assert rows == p + [last];
      assert forall x :: x in rows <==> x in p || x == last;
      forall e ensures e in LessonEvents(rows, lessonId) <==> FetchedFrom(rows, lessonId, e) {
        if FetchedFrom(rows, lessonId, e) {
          var row :| row in rows && row.lessonId == lessonId && e == EventOf(row);
          if row != last { assert FetchedFrom(p, lessonId, e); }
        }
        if FetchedFrom(p, lessonId, e) {
          var row :| row in p && row.lessonId == lessonId && e == EventOf(row);
          assert row in rows;
        }
      }
    }
  }

  /** Fetching keeps storage order: the events of two runs of rows are those of the first run
      followed by those of the second. */
  lemma {:induction false} LessonEventsAppend(a: seq<EventRecord>, b: seq<EventRecord>, lessonId: string)
    ensures LessonEvents(a + b, lessonId) == LessonEvents(a, lessonId) + LessonEvents(b, lessonId)
    decreases |b|
  {
    if b == [] {
      assert a + b == a;
    } else {
      var p := b[..|b| - 1];
      var last := b[|b| - 1];
      LessonEventsAppend(a, p, lessonId);
      assert (a + b)[..|a + b| - 1] == a + p;
      assert (a + b)[|a + b| - 1] == last;
      var tail: seq<InteractionEvent> := if last.lessonId == lessonId then [EventOf(last)] else [];
      assert LessonEvents(a + b, lessonId) == LessonEvents(a + p, lessonId) + tail;
      assert LessonEvents(b, lessonId) == LessonEvents(p, lessonId) + tail;
    }
  }

  /** A single row is fetched, as its own view, exactly when it belongs to the lesson. */
  lemma LessonEventsOfOne(row: EventRecord, lessonId: string)
    ensures LessonEvents([row], lessonId) == if row.lessonId == lessonId then [EventOf(row)] else []
  {
    assert [row][..0] == [];
  }

  /** Logging a row adds it at the end of its lesson's events, never adds an AI-help request
      (the logged row has no event type), and adds one visit exactly when it names a
      destination and belongs to the lesson. */
  lemma LoggedEventEffect(rows: seq<EventRecord>, row: EventRecord, lessonId: string)
    requires row.eventType.None?
    ensures var before := LessonEvents(rows, lessonId);
      var after := LessonEvents(rows + [row], lessonId);
      && after == before + (if row.lessonId == lessonId then [EventOf(row)] else [])
      && AnalyticsOf(after).aiHelpRequests == AnalyticsOf(before).aiHelpRequests
      && TotalVisits(AnalyticsOf(after).sceneVisits)
         == TotalVisits(AnalyticsOf(before).sceneVisits) + (if row.lessonId == lessonId && Truthy(row.toSceneId) then 1 else 0)
  {
    var all := rows + [row];
    assert all[..|all| - 1] == rows;
    var before := LessonEvents(rows, lessonId);
    var after := LessonEvents(all, lessonId);
    VisitCountsAddUp(before);
    VisitCountsAddUp(after);
    if row.lessonId == lessonId {
      assert after[..|after| - 1] == before;
    } else {
      assert after == before;
    }
  }

  /** The order `updateUnitsOrderSupabase` gives each unit row: `update({ order: index })` for
      each listed unit in turn, so the last listing of an id wins. */
  function SetOrder(rows: seq<UnitRecord>, id: string, order: int): (r: seq<UnitRecord>)
    ensures |r| == |rows|
  {
    seq(|rows|, k requires 0 <= k < |rows| => if rows[k].id == id then rows[k].(order := order) else rows[k])
  }

  function Reordered(rows: seq<UnitRecord>, ids: seq<string>): (r: seq<UnitRecord>)
    ensures |r| == |rows|
  {
    if ids == [] then rows else SetOrder(Reordered(rows, ids[..|ids| - 1]), ids[|ids| - 1], |ids| - 1)
  }

  /** The position of the last occurrence of `id` in `ids`. */
  function LastIndexOf(ids: seq<string>, id: string): (k: nat)
    requires id in ids
    ensures k < |ids| && ids[k] == id
    ensures forall j :: k < j < |ids| ==> ids[j] != id
  {
    if ids[|ids| - 1] == id then |ids| - 1 else LastIndexOf(ids[..|ids| - 1], id)
  }

  /** After reordering, a listed unit's order is the position of its last listing and every
      other column is untouched; units not listed are unchanged. */
  lemma {:induction false} ReorderedMeaning(rows: seq<UnitRecord>, ids: seq<string>)
    ensures var r := Reordered(rows, ids);
      forall k :: 0 <= k < |rows| ==>
        r[k] == if rows[k].id in ids then rows[k].(order := LastIndexOf(ids, rows[k].id)) else rows[k]
  {
    if ids != [] {
      var p := ids[..|ids| - 1];
      var last := ids[|ids| - 1];
      ReorderedMeaning(rows, p);
      assert ids == p + [last];
      forall k | 0 <= k < |rows| ensures Reordered(rows, ids)[k] ==
        if rows[k].id in ids then rows[k].(order := LastIndexOf(ids, rows[k].id)) else rows[k]
      {
        if rows[k].id != last && rows[k].id in ids {
          assert rows[k].id in p;
        }
      }
    }
  }

  /** When the listed ids are distinct, the unit listed at position `i` gets order `i`. */
  lemma LastIndexOfDistinct(ids: seq<string>, i: nat)
    requires NoDuplicates(ids) && i < |ids|
    ensures LastIndexOf(ids, ids[i]) == i
  {
  }

  /** The row under `id` is one the identifier selects: the id itself, or a row with that email. */
  predicate FoundUnder(profiles: map<string, Profile>, identifier: string, id: string) {
    id in profiles && (if IsEmail(identifier) then profiles[id].email == Some(identifier) else id == identifier)
  }

  lemma LookupIsFound(profiles: map<string, Profile>, identifier: string)
    requires LookupProfile(profiles, identifier).Some?
    ensures exists id :: FoundUnder(profiles, identifier, id) && LookupProfile(profiles, identifier).value == profiles[id]
  {
    var found := LookupProfile(profiles, identifier);
    if IsEmail(identifier) {
      var w :| w in WithEmail(profiles, identifier) && found.value == profiles[w];
      assert FoundUnder(profiles, identifier, w);
    } else {
      assert FoundUnder(profiles, identifier, identifier);
    }
  }

  /** The reply `addForumReply` appends: its own id and timestamp replaced by `rep_<now>`
      and the time of the call. */
  function NewReply(reply: Reply, now: nat): Reply {
    reply.(id := "rep_" + NatToString(now), timestamp := now)
  }

  // ---- The service ----

  class DBService {
    var scenes: seq<LessonScene>
    var lessons: seq<LessonRecord>
    var units: seq<UnitRecord>
    var questions: seq<QuestionRecord>
    var quizzes: seq<QuizRecord>
    var quizQuestions: seq<Relation>
    /** `student_lesson_progress`, keyed by its unique pair `(student_id, lesson_id)`. */
    var progress: map<(string, string), ProgressRecord>
    var events: seq<EventRecord>
    /** The next value of the events' serial id. */
    var nextEventId: nat
    /** `profiles`, keyed by id. */
    var profiles: map<string, Profile>
    /** `forum_posts`, keyed by id. */
    var forumPosts: map<string, ForumPost>
    /** `settings`: one JSON document per key. */
    var settings: map<string, map<string, Field>>
    /** Counter behind the identifiers of inserted rows. */
    var nextId: nat

    ghost predicate Valid()
      reads this
    {
      && WellKeyed(scenes, SceneId, nextId)
      && WellKeyed(lessons, LessonRecordId, nextId)
      && WellKeyed(units, UnitRecordId, nextId)
      && WellKeyed(questions, QuestionRecordId, nextId)
      && WellKeyed(quizzes, QuizRecordId, nextId)
      && (forall k :: k in progress ==> progress[k].studentId == k.0 && progress[k].lessonId == k.1)
      && (forall i :: 0 <= i < |events| ==> events[i].id < nextEventId)
      && (forall i, j :: 0 <= i < j < |events| ==> events[i].id < events[j].id)
      && KeysMatch(profiles)
      && (forall id :: id in forumPosts ==> forumPosts[id].id == id)
    }

    /** An empty store. */
    constructor ()
      ensures Valid()
      ensures scenes == [] && lessons == [] && units == [] && questions == [] && quizzes == []
      ensures quizQuestions == [] && progress == map[] && events == [] && profiles == map[]
      ensures forumPosts == map[] && settings == map[]
    {
      scenes, lessons, units, questions, quizzes := [], [], [], [], [];
      quizQuestions, progress, events, nextEventId := [], map[], [], 1;
      profiles, forumPosts, settings, nextId := map[], map[], map[], 0;
    }

    // ---- Interactive lessons ----

    /** `getLessonScenesForBuilder` */
    function GetLessonScenesForBuilder(lessonId: string): (r: seq<LessonScene>)
      reads this
      ensures forall s :: s in r <==> s in scenes && s.lessonId == lessonId
    {
      ScenesOf(scenes, lessonId)
    }

    /** `getLessonScene`: the scene with that id, or nothing. */
    function GetLessonScene(id: string): (r: Option<LessonScene>)
      reads this
      ensures r.Some? ==> r.value in scenes && r.value.id == id
      ensures r.None? ==> forall s :: s in scenes ==> s.id != id
    {
      Find(scenes, SceneId, id)
    }

    /** `saveLessonScene`: a present id without the `scene_` prefix updates that row (and
        rejects when there is none); any other id inserts a row under a fresh id. The result is
        the input with its durable id, and reading that id back gives the result. */
    method SaveLessonScene(scene: LessonScene) returns (r: Result<LessonScene>)
      requires Valid()
      modifies this`scenes, this`nextId
      ensures Valid()
      ensures UpdatesInPlace(scene.id, SceneTempPrefixes) ==>
        match old(IndexOf(scenes, SceneId, scene.id))
        case Some(i) => r == Ok(scene) && scenes == old(scenes)[i := scene] && nextId == old(nextId)
        case None => r == Err(NotFound) && scenes == old(scenes) && nextId == old(nextId)
      ensures !UpdatesInPlace(scene.id, SceneTempPrefixes) ==>
        r == Ok(scene.(id := FreshId(old(nextId))))
        && scenes == old(scenes) + [r.value] && nextId == old(nextId) + 1
      ensures r.Ok? ==> GetLessonScene(r.value.id) == Some(r.value) && UpdatesInPlace(r.value.id, SceneTempPrefixes)
    {
      if UpdatesInPlace(scene.id, SceneTempPrefixes) {
        match IndexOf(scenes, SceneId, scene.id)
        case Some(i) =>
          WriteInPlace(scenes, SceneId, i, scene, nextId);
          scenes := scenes[i := scene];
          r := Ok(scene);
        case None =>
          r := Err(NotFound);
      } else {
        var saved := scene.(id := FreshId(nextId));
        InsertFresh(scenes, SceneId, saved, nextId);
        KeepAllWellKeyed();
        FreshIdIsDurable(nextId);
        scenes := scenes + [saved];
        nextId := nextId + 1;
        r := Ok(saved);
      }
    }

    /** `deleteLessonScene`: the scene is gone; every other scene reads as before. */
    method DeleteLessonScene(id: string)
      requires Valid()
      modifies this`scenes
      ensures Valid()
      ensures scenes == DeleteId(old(scenes), SceneId, id)
      ensures GetLessonScene(id) == None
      ensures forall other :: other != id ==> GetLessonScene(other) == old(GetLessonScene(other))
    {
      forall other ensures Find(DeleteId(scenes, SceneId, id), SceneId, other)
                        == if other == id then None else Find(scenes, SceneId, other) {
        FindAfterDelete(scenes, SceneId, id, other);
      }
      UniqueAfterDelete(scenes, SceneId, id);
      scenes := DeleteId(scenes, SceneId, id);
    }

    /** The other tables stay well keyed when the counter moves on. */
    lemma KeepAllWellKeyed()
      requires Valid()
      ensures WellKeyed(scenes, SceneId, nextId + 1)
      ensures WellKeyed(lessons, LessonRecordId, nextId + 1)
      ensures WellKeyed(units, UnitRecordId, nextId + 1)
      ensures WellKeyed(questions, QuestionRecordId, nextId + 1)
      ensures WellKeyed(quizzes, QuizRecordId, nextId + 1)
    {
    }

    /** `saveStudentLessonProgress`: an upsert on the pair `(student_id, lesson_id)`. Without a
        scene nothing changes (the rejected upsert's error is ignored); with one, the pair has
        exactly one row, the stored one with the sent fields over it or a new one. Every other
        pair is unchanged. */
    method SaveStudentLessonProgress(p: StudentLessonProgress, now: int)
      requires Valid()
      modifies this`progress
      ensures Valid()
      ensures var key := (p.studentId, p.lessonId);
        var merged := UpsertProgress(if key in old(progress) then Some(old(progress)[key]) else None, p, now);
        progress == if merged.Some? then old(progress)[key := merged.value] else old(progress)
      ensures p.currentSceneId.None? ==> progress == old(progress)
      ensures p.currentSceneId.Some? ==> (p.studentId, p.lessonId) in progress && var row := progress[(p.studentId, p.lessonId)];
        && row.updatedAt == now
        && row.currentSceneId == p.currentSceneId.value
        && row.answers == (if p.answers.Some? || (p.studentId, p.lessonId) !in old(progress) then p.answers else old(progress)[(p.studentId, p.lessonId)].answers)
        && row.uploadedFiles == (if p.uploadedFiles.Some? || (p.studentId, p.lessonId) !in old(progress) then p.uploadedFiles else old(progress)[(p.studentId, p.lessonId)].uploadedFiles)
      ensures forall k :: k != (p.studentId, p.lessonId) ==>
        (k in progress <==> k in old(progress)) && (k in progress ==> progress[k] == old(progress)[k])
    {
      var key := (p.studentId, p.lessonId);
      var merged := UpsertProgress(if key in progress then Some(progress[key]) else None, p, now);
      if merged.Some? {
        progress := progress[key := merged.value];
      }
    }

    /** `logStudentInteraction`: a plain insert. The new row comes last, carries the given
        fields and no event type; earlier rows are unchanged, so identical calls log
        identical rows under different serial ids. */
    method LogStudentInteraction(e: StudentInteraction)
      requires Valid()
      modifies this`events, this`nextEventId
      ensures Valid()
      ensures events == old(events) + [EventRecord(old(nextEventId), e.studentId, e.lessonId,
        e.fromSceneId, e.toSceneId, e.decisionText, None)]
      ensures nextEventId == old(nextEventId) + 1
    {
      events := events + [EventRecord(nextEventId, e.studentId, e.lessonId, e.fromSceneId, e.toSceneId,
                                      e.decisionText, None)];
      nextEventId := nextEventId + 1;
    }

    /** `getLessonAnalytics`: the reducer run over the lesson's events. */
    method GetLessonAnalytics(lessonId: string) returns (a: AnalyticsData)
      ensures a == AnalyticsOf(LessonEvents(events, lessonId))
      ensures |a.liveEvents| <= LiveEventsLimit
      ensures forall e :: e in a.liveEvents ==> FetchedFrom(events, lessonId, e)
    {
      var fetched := LessonEvents(events, lessonId);
      LessonEventsMembers(events, lessonId);
      a := Aggregate(fetched);
    }

    // ---- Lessons, units, questions, quizzes ----

    /** `saveLesson`: the temporary-id rule with prefix `l_`; an update rewrites only the
        columns the service sends. */
    method SaveLesson(lesson: Lesson, unitId: string) returns (r: Result<Lesson>)
      requires Valid()
      modifies this`lessons, this`nextId
      ensures Valid()
      ensures UpdatesInPlace(lesson.id, LessonTempPrefixes) ==>
        match old(IndexOf(lessons, LessonRecordId, lesson.id))
        case Some(i) =>
          r == Ok(lesson) && lessons == old(lessons)[i := WriteLesson(old(lessons)[i], lesson, unitId)]
          && nextId == old(nextId)
        case None => r == Err(NotFound) && lessons == old(lessons) && nextId == old(nextId)
      ensures !UpdatesInPlace(lesson.id, LessonTempPrefixes) ==>
        r == Ok(lesson.(id := FreshId(old(nextId))))
        && lessons == old(lessons) + [NewLesson(FreshId(old(nextId)), lesson, unitId)]
        && nextId == old(nextId) + 1
      ensures r.Ok? ==> UpdatesInPlace(r.value.id, LessonTempPrefixes)
    {
      if UpdatesInPlace(lesson.id, LessonTempPrefixes) {
        match IndexOf(lessons, LessonRecordId, lesson.id)
        case Some(i) =>
          WriteInPlace(lessons, LessonRecordId, i, WriteLesson(lessons[i], lesson, unitId), nextId);
          lessons := lessons[i := WriteLesson(lessons[i], lesson, unitId)];
          r := Ok(lesson);
        case None =>
          r := Err(NotFound);
      } else {
        var id := FreshId(nextId);
        InsertFresh(lessons, LessonRecordId, NewLesson(id, lesson, unitId), nextId);
        KeepAllWellKeyed();
        FreshIdIsDurable(nextId);
        lessons := lessons + [NewLesson(id, lesson, unitId)];
        nextId := nextId + 1;
        r := Ok(lesson.(id := id));
      }
    }

    /** `saveUnit`: the temporary-id rule with prefix `u_`; the stored order is `order || 0`,
        and the returned unit has the durable id and no lessons. */
    method SaveUnit(unit: Unit, curriculumId: string) returns (r: Result<Unit>)
      requires Valid()
      modifies this`units, this`nextId
      ensures Valid()
      ensures UpdatesInPlace(unit.id, UnitTempPrefixes) ==>
        match old(IndexOf(units, UnitRecordId, unit.id))
        case Some(i) =>
          r == Ok(unit.(lessons := [])) && units == old(units)[i := WriteUnit(unit.id, unit, curriculumId)]
          && nextId == old(nextId)
        case None => r == Err(NotFound) && units == old(units) && nextId == old(nextId)
      ensures !UpdatesInPlace(unit.id, UnitTempPrefixes) ==>
        r == Ok(unit.(id := FreshId(old(nextId)), lessons := []))
        && units == old(units) + [WriteUnit(FreshId(old(nextId)), unit, curriculumId)]
        && nextId == old(nextId) + 1
      ensures r.Ok? ==> UpdatesInPlace(r.value.id, UnitTempPrefixes)
    {
      if UpdatesInPlace(unit.id, UnitTempPrefixes) {
        match IndexOf(units, UnitRecordId, unit.id)
        case Some(i) =>
          WriteInPlace(units, UnitRecordId, i, WriteUnit(unit.id, unit, curriculumId), nextId);
          units := units[i := WriteUnit(unit.id, unit, curriculumId)];
          r := Ok(unit.(lessons := []));
        case None =>
          r := Err(NotFound);
      } else {
        var id := FreshId(nextId);
        InsertFresh(units, UnitRecordId, WriteUnit(id, unit, curriculumId), nextId);
        KeepAllWellKeyed();
        FreshIdIsDurable(nextId);
        units := units + [WriteUnit(id, unit, curriculumId)];
        nextId := nextId + 1;
        r := Ok(unit.(id := id, lessons := []));
      }
    }

    /** `updateUnitsOrderSupabase`: each listed unit in turn gets its position as its order;
        a unit that is not stored is skipped. */
    method UpdateUnitsOrder(list: seq<Unit>)
      requires Valid()
      modifies this`units
      ensures Valid()
      ensures units == Reordered(old(units), seq(|list|, k requires 0 <= k < |list| => list[k].id))
    {
      ghost var ids := seq(|list|, k requires 0 <= k < |list| => list[k].id);
      var index := 0;
      while index < |list|
        invariant 0 <= index <= |list|
        invariant units == Reordered(old(units), ids[..index])
        invariant WellKeyed(units, UnitRecordId, nextId)
      {
        assert ids[..index + 1][..index] == ids[..index];
        units := SetOrder(units, list[index].id, index);
        index := index + 1;
      }
      assert ids[..|list|] == ids;
    }

    /** `saveQuestion`: the temporary-id rule with prefixes `temp` and `q_`; the result is the
        stored row with the input's grade and subject or their defaults. */
    method SaveQuestion(question: QuestionInput) returns (r: Result<Question>)
      requires Valid()
      modifies this`questions, this`nextId
      ensures Valid()
      ensures UpdatesInPlace(question.id, QuestionTempPrefixes) ==>
        match old(IndexOf(questions, QuestionRecordId, question.id))
        case Some(i) =>
          r == Ok(QuestionOf(WriteQuestion(question.id, question), question))
          && questions == old(questions)[i := WriteQuestion(question.id, question)] && nextId == old(nextId)
        case None => r == Err(NotFound) && questions == old(questions) && nextId == old(nextId)
      ensures !UpdatesInPlace(question.id, QuestionTempPrefixes) ==>
        r == Ok(QuestionOf(WriteQuestion(FreshId(old(nextId)), question), question))
        && questions == old(questions) + [WriteQuestion(FreshId(old(nextId)), question)]
        && nextId == old(nextId) + 1
      ensures r.Ok? ==> UpdatesInPlace(r.value.id, QuestionTempPrefixes)
    {
      if UpdatesInPlace(question.id, QuestionTempPrefixes) {
        match IndexOf(questions, QuestionRecordId, question.id)
        case Some(i) =>
          var row := WriteQuestion(question.id, question);
          WriteInPlace(questions, QuestionRecordId, i, row, nextId);
          questions := questions[i := row];
          r := Ok(QuestionOf(row, question));
        case None =>
          r := Err(NotFound);
      } else {
        var row := WriteQuestion(FreshId(nextId), question);
        InsertFresh(questions, QuestionRecordId, row, nextId);
        KeepAllWellKeyed();
        FreshIdIsDurable(nextId);
        questions := questions + [row];
        nextId := nextId + 1;
        r := Ok(QuestionOf(row, question));
      }
    }

    /** `getQuizzes`: every selected quiz row, each with the question ids its relations list
        and a total score of 0; no other quiz. */
    function GetQuizzes(grade: Option<string>): (r: seq<Quiz>)
      reads this
      ensures forall row :: row in quizzes && (FiltersByGrade(grade) ==> row.grade == grade.value) ==>
        QuizOf(row, quizQuestions) in r
      ensures forall q :: q in r ==>
        && WriteQuiz(q.id, q) in quizzes
        && (FiltersByGrade(grade) ==> q.grade == grade.value)
        && q.questionIds == IdsOf(quizQuestions, q.id) && q.totalScore == 0
    {
      var rows := SelectQuizzes(quizzes, grade);
      var mappings := quizQuestions;
      var r := seq(|rows|, k requires 0 <= k < |rows| => QuizOf(rows[k], mappings));
      assert forall row :: row in rows ==> QuizOf(row, mappings) in r by {
        forall row | row in rows ensures QuizOf(row, mappings) in r {
          var k :| 0 <= k < |rows| && rows[k] == row;
          assert r[k] == QuizOf(row, mappings);
        }
      }
      assert forall q :: q in r ==> WriteQuiz(q.id, q) in rows by {
        forall q | q in r ensures WriteQuiz(q.id, q) in rows {
          var k :| 0 <= k < |r| && r[k] == q;
          assert WriteQuiz(q.id, q) == rows[k];
        }
      }
      r
    }

    /** `saveQuiz`: an id starting with `quiz_` inserts under a fresh id, any other id updates
        the row (nothing happens when there is none: errors are not checked). Either way the
        quiz's relations are replaced by exactly its question ids, and reading them back
        gives those ids while every other quiz keeps its own. */
    method SaveQuiz(quiz: Quiz) returns (r: Quiz)
      requires Valid()
      modifies this`quizzes, this`quizQuestions, this`nextId
      ensures Valid()
      ensures QuizUpdatesInPlace(quiz.id) ==>
        r == quiz && nextId == old(nextId)
        && match old(IndexOf(quizzes, QuizRecordId, quiz.id))
           case Some(i) => quizzes == old(quizzes)[i := WriteQuiz(quiz.id, quiz)]
           case None => quizzes == old(quizzes)
      ensures !QuizUpdatesInPlace(quiz.id) ==>
        r == quiz.(id := FreshId(old(nextId)))
        && quizzes == old(quizzes) + [WriteQuiz(r.id, quiz)] && nextId == old(nextId) + 1
      ensures quizQuestions == ReplaceRelations(old(quizQuestions), r.id, quiz.questionIds)
      ensures forall other ::
        IdsOf(quizQuestions, other) == if other == r.id then quiz.questionIds else old(IdsOf(quizQuestions, other))
    {
      var quizId := quiz.id;
      if !QuizUpdatesInPlace(quiz.id) {
        quizId := FreshId(nextId);
        InsertFresh(quizzes, QuizRecordId, WriteQuiz(quizId, quiz), nextId);
        KeepAllWellKeyed();
        quizzes := quizzes + [WriteQuiz(quizId, quiz)];
        nextId := nextId + 1;
      } else {
        match IndexOf(quizzes, QuizRecordId, quiz.id)
        case Some(i) =>
          WriteInPlace(quizzes, QuizRecordId, i, WriteQuiz(quiz.id, quiz), nextId);
          quizzes := quizzes[i := WriteQuiz(quiz.id, quiz)];
        case None =>
      }
      SetQuizQuestions(quizId, quiz.questionIds);
      r := quiz.(id := quizId);
    }

    /** The relation part of `saveQuiz`: delete the quiz's relations, then insert one per
        question id. Reading them back gives exactly those ids, in order. */
    method SetQuizQuestions(quizId: string, questionIds: seq<string>)
      requires Valid()
      modifies this`quizQuestions
      ensures Valid()
      ensures quizQuestions == ReplaceRelations(old(quizQuestions), quizId, questionIds)
      ensures forall other ::
        IdsOf(quizQuestions, other) == if other == quizId then questionIds else old(IdsOf(quizQuestions, other))
    {
      forall other ensures IdsOf(ReplaceRelations(quizQuestions, quizId, questionIds), other)
                        == if other == quizId then questionIds else IdsOf(quizQuestions, other) {
        ReplaceThenRead(quizQuestions, quizId, questionIds, other);
      }
      quizQuestions := ReplaceRelations(quizQuestions, quizId, questionIds);
    }

    // ---- Users ----

    /** `getUser`: the identifier finds a row by email when it contains `@` (and only when
        exactly one row has that email), by id otherwise; the user is that row mapped. */
    function GetUser(identifier: string): (r: Option<User>)
      reads this
      ensures r.Some? ==> exists id :: FoundUnder(profiles, identifier, id) && r.value == MapProfileToUser(profiles[id])
      ensures !IsEmail(identifier) ==> (r.Some? <==> identifier in profiles)
      ensures IsEmail(identifier) ==> (r.Some? <==> |WithEmail(profiles, identifier)| == 1)
    {
      var found := LookupProfile(profiles, identifier);
      if found.None? then None
      else
        LookupIsFound(profiles, identifier);
        Some(MapProfileToUser(found.value))
    }

    /** `saveUser`: an upsert of the user's row, stamped with the time of the call. Loading
        the user by id afterwards gives the saved user with that time as last seen (and the
        default name when the saved one is empty). */
    method SaveUser(u: User, now: int)
      requires Valid()
      modifies this`profiles
      ensures Valid()
      ensures profiles == old(profiles)[u.uid := ProfileOfUser(u, now)]
      ensures !IsEmail(u.uid) ==> GetUser(u.uid) == Some(u.(name := OrDefault(u.name, DefaultName), lastSeen := Some(now)))
    {
      profiles := profiles[u.uid := ProfileOfUser(u, now)];
      SaveThenLoad(u, now);
    }

    /** `toggleLessonComplete`: load the user, flip the lesson in the completed set and move
        the points by ten, then save; nothing happens when no user is found. */
    method ToggleLessonComplete(uid: string, lessonId: string, now: int)
      requires Valid()
      modifies this`profiles
      ensures Valid()
      ensures old(GetUser(uid)).None? ==> profiles == old(profiles)
      ensures old(GetUser(uid)).Some? ==> var u := old(GetUser(uid)).value;
        profiles == old(profiles)[u.uid := ProfileOfUser(u.(progress := Toggled(u.progress, lessonId)), now)]
      ensures !IsEmail(uid) && old(GetUser(uid)).Some? ==>
        GetUser(uid).Some? && GetUser(uid).value.progress == Toggled(old(GetUser(uid)).value.progress, lessonId)
    {
      var found := GetUser(uid);
      if found.None? {
        return;
      }
      var user := found.value;
      var completed := Dedup(user.progress.completedLessonIds);
      var points := user.progress.points;
      if lessonId in completed {
        completed := Remove(completed, lessonId);
        points := points - PointsPerLesson;
      } else {
        completed := completed + [lessonId];
        points := points + PointsPerLesson;
      }
      user := user.(progress := user.progress.(completedLessonIds := completed, points := points));
      SaveUser(user, now);
    }

    // ---- Forum and settings ----

    /** `addForumReply`: read the post's replies (none when NULL), append the new reply and
        write them back; nothing changes when the post does not exist. */
    method AddForumReply(postId: string, reply: Reply, now: nat)
      requires Valid()
      modifies this`forumPosts
      ensures Valid()
      ensures postId !in old(forumPosts) ==> forumPosts == old(forumPosts)
      ensures postId in old(forumPosts) ==> var post := old(forumPosts)[postId];
        forumPosts == old(forumPosts)[postId := post.(replies := Some(post.replies.GetOr([]) + [NewReply(reply, now)]))]
    {
      if postId in forumPosts {
        var post := forumPosts[postId];
        var replies := post.replies.GetOr([]);
        replies := replies + [NewReply(reply, now)];
        forumPosts := forumPosts[postId := post.(replies := Some(replies))];
      }
    }

    /** `getSetting`: the document stored under the key, if any. */
    function GetSetting(key: string): (r: Option<map<string, Field>>)
      reads this
      ensures r.Some? <==> key in settings
      ensures r.Some? ==> r.value == settings[key]
    {
      if key in settings then Some(settings[key]) else None
    }

    /** `saveSetting`: an upsert on the key. The document reads back and every other key is
        unchanged. */
    method SaveSetting(key: string, value: map<string, Field>)
      requires Valid()
      modifies this`settings
      ensures Valid()
      ensures settings == old(settings)[key := value]
      ensures GetSetting(key) == Some(value)
      ensures forall other :: other != key ==> GetSetting(other) == old(GetSetting(other))
    {
      settings := settings[key := value];
    }

    /** `getBrochureSettings`: the stored brochure document over the defaults, so that every
        default field is present and every stored field wins. */
    function GetBrochureSettings(): (r: map<string, Field>)
      reads this
      ensures BrochureDefaults.Keys <= r.Keys
      ensures "brochure" in settings ==> forall k :: k in settings["brochure"] ==> k in r && r[k] == settings["brochure"][k]
      ensures forall k :: k in BrochureDefaults && ("brochure" !in settings || k !in settings["brochure"]) ==> r[k] == BrochureDefaults[k]
    {
      MergeWithDefaults(GetSetting("brochure"))
    }

    /** `saveBrochureSettings`: after saving, every saved field reads back and every other
        default field reads as its default. */
    method SaveBrochureSettings(s: map<string, Field>)
      requires Valid()
      modifies this`settings
      ensures Valid()
      ensures settings == old(settings)["brochure" := s]
      ensures GetBrochureSettings() == BrochureDefaults + s
    {
      SaveSetting("brochure", s);
    }
  }
}
