/** The interactive-lesson analytics reducer (`getLessonAnalytics`): scene-visit counts,
    decision counts keyed by an encoded `from__text__to` string, the number of AI-help
    requests, and the window of live events, computed from a lesson's fetched events. */
module Analytics {
  import opened Common
  import opened Seqs

  /** One fetched row of `student_interaction_events`, its serial id already rendered as text.
      Absent columns are SQL NULL, modelled as `None`. */
  datatype InteractionEvent = InteractionEvent(
    id: string,
    studentId: string,
    lessonId: string,
    fromSceneId: Option<string>,
    toSceneId: Option<string>,
    decisionText: Option<string>,
    eventType: Option<string>)

  datatype SceneVisit = SceneVisit(sceneId: string, title: string, visitCount: nat)

  /** A decoded decision-count entry. Destructuring `key.split('__')` leaves a part
      `undefined` when the split yields fewer than three pieces: those are `None` here. */
  datatype DecisionCount = DecisionCount(
    fromSceneId: string,
    decisionText: Option<string>,
    toSceneId: Option<string>,
    choiceCount: nat)

  datatype AnalyticsData = AnalyticsData(
    sceneVisits: seq<SceneVisit>,
    decisionCounts: seq<DecisionCount>,
    liveEvents: seq<InteractionEvent>,
    aiHelpRequests: nat)

  /** How many fetched events `live_events` shows. */
  const LiveEventsLimit: nat := 50

  /** The event type that counts as a request for AI help. */
  const AiHelpRequested: string := "ai_help_requested"

  /** An event counts as a visit of its destination when `to_scene_id` is truthy. */
  predicate HasDestination(e: InteractionEvent) {
    Truthy(e.toSceneId)
  }

  /** An event counts as a decision when both `from_scene_id` and `decision_text` are truthy. */
  predicate HasDecision(e: InteractionEvent) {
    Truthy(e.fromSceneId) && Truthy(e.decisionText)
  }

  predicate IsAiHelpRequest(e: InteractionEvent) {
    e.eventType == Some(AiHelpRequested)
  }

  /** A fetched column interpolated into a template literal: SQL NULL arrives as `null`
      and is rendered as the text "null". */
  function Render(o: Option<string>): string {
    match o
    case Some(s) => s
    case None => "null"
  }

  /** `${from}__${text}__${to}` */
  function EncodeKey(from: string, text: string, to: string): string {
    from + "__" + text + "__" + to
  }

  function DecisionKey(e: InteractionEvent): string
    requires HasDecision(e)
  {
    EncodeKey(e.fromSceneId.value, e.decisionText.value, Render(e.toSceneId))
  }

  /** `s.split('__')`: the pieces between the non-overlapping occurrences of `__`,
      found from left to right. */
  function SplitOnSeparator(s: string): (parts: seq<string>)
    ensures |parts| >= 1
    decreases |s|
  {
    if |s| < 2 then [s]
    else if s[0] == '_' && s[1] == '_' then [""] + SplitOnSeparator(s[2..])
    else
      var rest := SplitOnSeparator(s[1..]);
      [[s[0]] + rest[0]] + rest[1..]
  }

  /** `const [from, text, to] = key.split('__')`, paired with the key's count. */
  function DecodeKey(key: string, count: nat): DecisionCount {
    var parts := SplitOnSeparator(key);
    DecisionCount(
      parts[0],
      if |parts| > 1 then Some(parts[1]) else None,
      if |parts| > 2 then Some(parts[2]) else None,
      count)
  }

  /** `id.substring(0, 8)` */
  function VisitTitle(id: string): (t: string)
    ensures |t| == (if |id| < 8 then |id| else 8) && StartsWith(id, t)
  {
    id[..if |id| < 8 then |id| else 8]
  }

  // ---- Reference counts over the event list (each event examined on its own) ----

  /** The number of events whose destination is `id`. */
  function VisitsTo(events: seq<InteractionEvent>, id: string): nat {
    if events == [] then 0
    else
      var e := events[|events| - 1];
      VisitsTo(events[..|events| - 1], id) + (if HasDestination(e) && e.toSceneId.value == id then 1 else 0)
  }

  /** The number of events that have a destination at all. */
  function NumWithDestination(events: seq<InteractionEvent>): nat {
    if events == [] then 0
    else NumWithDestination(events[..|events| - 1]) + (if HasDestination(events[|events| - 1]) then 1 else 0)
  }

  /** The number of decision events whose encoded key is `key`. */
  function ChoicesOfKey(events: seq<InteractionEvent>, key: string): nat {
    if events == [] then 0
    else
      var e := events[|events| - 1];
      ChoicesOfKey(events[..|events| - 1], key) + (if HasDecision(e) && DecisionKey(e) == key then 1 else 0)
  }

  /** The decision event `e` chose `text` at `from` and its row names `to` as destination. */
  predicate IsChoice(e: InteractionEvent, from: string, text: string, to: string) {
    HasDecision(e) && e.fromSceneId.value == from && e.decisionText.value == text && Render(e.toSceneId) == to
  }

  /** The number of decision events with exactly the triple `(from, text, to)`. */
  function ChoicesOfTriple(events: seq<InteractionEvent>, from: string, text: string, to: string): nat {
    if events == [] then 0
    else
      ChoicesOfTriple(events[..|events| - 1], from, text, to)
        + (if IsChoice(events[|events| - 1], from, text, to) then 1 else 0)
  }

  function AiHelpCount(events: seq<InteractionEvent>): nat {
    if events == [] then 0
    else AiHelpCount(events[..|events| - 1]) + (if IsAiHelpRequest(events[|events| - 1]) then 1 else 0)
  }

  /** The destinations of the events that have one, in event order. */
  function Destinations(events: seq<InteractionEvent>): seq<string> {
    if events == [] then []
    else
      var e := events[|events| - 1];
      Destinations(events[..|events| - 1]) + (if HasDestination(e) then [e.toSceneId.value] else [])
  }

  /** The encoded keys of the decision events, in event order. */
  function DecisionKeys(events: seq<InteractionEvent>): seq<string> {
    if events == [] then []
    else
      var e := events[|events| - 1];
      DecisionKeys(events[..|events| - 1]) + (if HasDecision(e) then [DecisionKey(e)] else [])
  }

  function LiveWindow(n: nat): nat {
    if n < LiveEventsLimit then n else LiveEventsLimit
  }

  /** What `getLessonAnalytics` returns for a fetched event list: one visit entry per distinct
      destination and one decision entry per distinct key, each in order of first occurrence
      (the key order of the objects the reducer fills), the first events up to the limit, and
      the number of AI-help requests. */
  function AnalyticsOf(events: seq<InteractionEvent>): (a: AnalyticsData)
    ensures |a.liveEvents| == LiveWindow(|events|) && a.liveEvents <= events
    ensures a.aiHelpRequests == AiHelpCount(events)
  {
    var dests := Destinations(events);
    var keys := DecisionKeys(events);
    DedupMembers(dests);
    DedupMembers(keys);
    AnalyticsData(
      VisitEntries(Dedup(dests), Counts(dests)),
      DecisionEntries(Dedup(keys), Counts(keys)),
      events[..LiveWindow(|events|)],
      AiHelpCount(events))
  }

  /** `Object.entries(sceneVisits).map(...)` */
  function VisitEntries(ids: seq<string>, visits: map<string, nat>): (r: seq<SceneVisit>)
    requires forall j :: 0 <= j < |ids| ==> ids[j] in visits
    ensures |r| == |ids|
  {
    seq(|ids|, j requires 0 <= j < |ids| => SceneVisit(ids[j], VisitTitle(ids[j]), visits[ids[j]]))
  }

  /** `Object.entries(decisionCounts).map(...)` */
  function DecisionEntries(keys: seq<string>, choices: map<string, nat>): (r: seq<DecisionCount>)
    requires forall j :: 0 <= j < |keys| ==> keys[j] in choices
    ensures |r| == |keys|
  {
    seq(|keys|, j requires 0 <= j < |keys| => DecodeKey(keys[j], choices[keys[j]]))
  }

  /** How the key lists and the AI-help count grow when the reducer takes one more event. */
  lemma AppendStep(done: seq<InteractionEvent>, e: InteractionEvent)
    ensures Destinations(done + [e]) == Destinations(done) + (if HasDestination(e) then [e.toSceneId.value] else [])
    ensures DecisionKeys(done + [e]) == DecisionKeys(done) + (if HasDecision(e) then [DecisionKey(e)] else [])
    ensures AiHelpCount(done + [e]) == AiHelpCount(done) + (if IsAiHelpRequest(e) then 1 else 0)
  {
    var all := done + [e];
    assert all[..|all| - 1] == done && all[|all| - 1] == e;
  }

  /** `counter[x] = (counter[x] || 0) + 1` on an object used as a counter: the counts and the
      key order then tally one more occurrence of `x`. */
  method Tally(ghost xs: seq<string>, counts: map<string, nat>, order: seq<string>, x: string)
    returns (counts': map<string, nat>, order': seq<string>)
    requires Tallies(xs, counts, order)
    ensures Tallies(xs + [x], counts', order')
  {
    var previous := if x in counts then counts[x] else 0;
    TalliesStep(xs, counts, order, x);
    order' := if x in counts then order else order + [x];
    counts' := counts[x := previous + 1];
  }

  /** The body of the `forEach`: one event taken into the visit and decision records and the
      AI-help counter. */
  method Step(ghost done: seq<InteractionEvent>, e: InteractionEvent,
              visits: map<string, nat>, visitOrder: seq<string>,
              decisions: map<string, nat>, decisionOrder: seq<string>, aiRequests: nat)
    returns (visits': map<string, nat>, visitOrder': seq<string>,
             decisions': map<string, nat>, decisionOrder': seq<string>, aiRequests': nat)
    requires Tallies(Destinations(done), visits, visitOrder)
    requires Tallies(DecisionKeys(done), decisions, decisionOrder)
    requires aiRequests == AiHelpCount(done)
    ensures Tallies(Destinations(done + [e]), visits', visitOrder')
    ensures Tallies(DecisionKeys(done + [e]), decisions', decisionOrder')
    ensures aiRequests' == AiHelpCount(done + [e])
  {
    AppendStep(done, e);
    if Truthy(e.toSceneId) {
      visits', visitOrder' := Tally(Destinations(done), visits, visitOrder, e.toSceneId.value);
    } else {
      assert Destinations(done + [e]) == Destinations(done);
      visits', visitOrder' := visits, visitOrder;
    }
    if Truthy(e.fromSceneId) && Truthy(e.decisionText) {
      var key := EncodeKey(e.fromSceneId.value, e.decisionText.value, Render(e.toSceneId));
      decisions', decisionOrder' := Tally(DecisionKeys(done), decisions, decisionOrder, key);
    } else {
      assert DecisionKeys(done + [e]) == DecisionKeys(done);
      decisions', decisionOrder' := decisions, decisionOrder;
    }
    aiRequests' := if e.eventType == Some(AiHelpRequested) then aiRequests + 1 else aiRequests;
  }

  /** The reducer itself: one pass over the events filling the visit and decision records
      and the AI-help counter. */
  method Aggregate(events: seq<InteractionEvent>) returns (a: AnalyticsData)
    ensures a == AnalyticsOf(events)
  {
    var visits: map<string, nat> := map[];
    var visitOrder: seq<string> := [];
    var decisions: map<string, nat> := map[];
    var decisionOrder: seq<string> := [];
    var aiRequests: nat := 0;
    var i := 0;
    while i < |events|
      invariant 0 <= i <= |events|
      invariant Tallies(Destinations(events[..i]), visits, visitOrder)
      invariant Tallies(DecisionKeys(events[..i]), decisions, decisionOrder)
      invariant aiRequests == AiHelpCount(events[..i])
    {
      assert events[..i + 1] == events[..i] + [events[i]];
      visits, visitOrder, decisions, decisionOrder, aiRequests :=
        Step(events[..i], events[i], visits, visitOrder, decisions, decisionOrder, aiRequests);
      i := i + 1;
    }
    assert events[..i] == events;
    TalliesAreCounts(Destinations(events), visits, visitOrder);
    TalliesAreCounts(DecisionKeys(events), decisions, decisionOrder);
    DedupMembers(Destinations(events));
    DedupMembers(DecisionKeys(events));
    a := AnalyticsData(
      VisitEntries(visitOrder, visits),
      DecisionEntries(decisionOrder, decisions),
      events[..LiveWindow(|events|)],
      aiRequests);
  }

  // ---- What the aggregates mean ----

  /** The sum of the visit counts of a list of entries. */
  function TotalVisits(visits: seq<SceneVisit>): nat {
    if visits == [] then 0 else TotalVisits(visits[..|visits| - 1]) + visits[|visits| - 1].visitCount
  }

  lemma {:induction false} DestinationsLength(events: seq<InteractionEvent>)
    ensures |Destinations(events)| == NumWithDestination(events)
  {
    if events != [] {
      DestinationsLength(events[..|events| - 1]);
    }
  }

  lemma {:induction false} CountOfDestinations(events: seq<InteractionEvent>, id: string)
    ensures Count(Destinations(events), id) == VisitsTo(events, id)
  {
    if events != [] {
      var p := events[..|events| - 1];
      var e := events[|events| - 1];
      CountOfDestinations(p, id);
      var d := Destinations(p);
      if HasDestination(e) {
        assert (d + [e.toSceneId.value])[..|d|] == d;
      } else {
        assert d + [] == d;
      }
    }
  }

  /** Some event of `events` arrives at scene `id`. */
  predicate ArrivesAt(events: seq<InteractionEvent>, id: string) {
    exists e :: e in events && HasDestination(e) && e.toSceneId.value == id
  }

  lemma {:induction false} InDestinations(events: seq<InteractionEvent>, id: string)
    ensures id in Destinations(events) <==> ArrivesAt(events, id)
  {
    if events != [] {
      var p := events[..|events| - 1];
      var e := events[|events| - 1];
      InDestinations(p, id);
      assert events == p + [e];
      assert forall x :: x in events <==> x in p || x == e;
    }
  }

  lemma {:induction false} TotalOfVisitEntries(ids: seq<string>, dests: seq<string>)
    requires forall j :: 0 <= j < |ids| ==> ids[j] in dests
    ensures TotalVisits(VisitEntries(ids, Counts(dests))) == SumOfCounts(ids, dests)
  {
    if ids != [] {
      var p := ids[..|ids| - 1];
      TotalOfVisitEntries(p, dests);
      var entries := VisitEntries(ids, Counts(dests));
      assert entries[..|entries| - 1] == VisitEntries(p, Counts(dests));
    }
  }

  /** Every event with a destination contributes exactly one visit, and no other event
      contributes any: the visit counts add up to the number of events with a destination. */
  lemma VisitCountsAddUp(events: seq<InteractionEvent>)
    ensures TotalVisits(AnalyticsOf(events).sceneVisits) == NumWithDestination(events)
  {
    var dests := Destinations(events);
    DedupMembers(dests);
    TotalOfVisitEntries(Dedup(dests), dests);
    SumOfCountsOverDedup(dests);
    DestinationsLength(events);
  }

  /** There is one visit entry per distinct destination and none for events without one, and
      each entry counts exactly the events that arrive at its scene. */
  lemma SceneVisitsExact(events: seq<InteractionEvent>)
    ensures var visits := AnalyticsOf(events).sceneVisits;
      && (forall j, k :: 0 <= j < k < |visits| ==> visits[j].sceneId != visits[k].sceneId)
      && (forall j :: 0 <= j < |visits| ==>
            visits[j].visitCount == VisitsTo(events, visits[j].sceneId) && visits[j].visitCount >= 1)
      && (forall e :: e in events && HasDestination(e) ==>
            exists j :: 0 <= j < |visits| && visits[j].sceneId == e.toSceneId.value)
      && (forall j :: 0 <= j < |visits| ==> ArrivesAt(events, visits[j].sceneId))
  {
    var dests := Destinations(events);
    var ids := Dedup(dests);
    var visits := AnalyticsOf(events).sceneVisits;
    DedupMembers(dests);
    forall j | 0 <= j < |visits|
      ensures visits[j].visitCount == VisitsTo(events, visits[j].sceneId) && visits[j].visitCount >= 1
    {
      assert visits[j].sceneId == ids[j] && ids[j] in dests;
      CountOfDestinations(events, ids[j]);
      CountZeroIffAbsent(dests, ids[j]);
    }
    forall j | 0 <= j < |visits|
      ensures ArrivesAt(events, visits[j].sceneId)
    {
      assert visits[j].sceneId == ids[j] && ids[j] in dests;
      InDestinations(events, ids[j]);
    }
    forall e | e in events && HasDestination(e)
      ensures exists j :: 0 <= j < |visits| && visits[j].sceneId == e.toSceneId.value
    {
      InDestinations(events, e.toSceneId.value);
      var j :| 0 <= j < |ids| && ids[j] == e.toSceneId.value;
      assert visits[j].sceneId == ids[j];
    }
  }

  // ---- Decoding the decision keys ----

  /** `s` contains the separator `__`. */
  predicate ContainsSeparator(s: string) {
    exists i :: 0 <= i < |s| - 1 && s[i] == '_' && s[i + 1] == '_'
  }

  predicate EndsWithUnderscore(s: string) {
    |s| > 0 && s[|s| - 1] == '_'
  }

  /** The condition under which `split('__')` gives back the three parts of an encoded key:
      no part contains `__`, and neither of the first two ends in `_` (a trailing `_` would
      join the separator that follows it). */
  predicate DecodesFaithfully(from: string, text: string, to: string) {
    && !ContainsSeparator(from) && !EndsWithUnderscore(from)
    && !ContainsSeparator(text) && !EndsWithUnderscore(text)
    && !ContainsSeparator(to)
  }

  lemma {:induction false} SplitWithoutSeparator(s: string)
    requires !ContainsSeparator(s)
    ensures SplitOnSeparator(s) == [s]
    decreases |s|
  {
    if |s| >= 2 {
      assert !(s[0] == '_' && s[1] == '_');
      forall i | 0 <= i < |s| - 2 ensures !(s[1..][i] == '_' && s[1..][i + 1] == '_') {
        assert s[1..][i] == s[i + 1] && s[1..][i + 1] == s[i + 2];
      }
      SplitWithoutSeparator(s[1..]);
      assert [s[0]] + s[1..] == s;
    }
  }

  lemma {:induction false} SplitAfterPart(x: string, y: string)
    requires !ContainsSeparator(x) && !EndsWithUnderscore(x)
    ensures SplitOnSeparator(x + "__" + y) == [x] + SplitOnSeparator(y)
    decreases |x|
  {
    var s := x + "__" + y;
    if x == "" {
      assert s[2..] == y;
    } else {
      assert s[0] == x[0];
      assert |x| == 1 ==> s[1] == '_' && x[0] != '_';
      assert |x| > 1 ==> s[1] == x[1] && !(x[0] == '_' && x[1] == '_');
      var x' := x[1..];
      forall i | 0 <= i < |x'| - 1 ensures !(x'[i] == '_' && x'[i + 1] == '_') {
        assert x'[i] == x[i + 1] && x'[i + 1] == x[i + 2];
      }
      assert x' != "" ==> x'[|x'| - 1] == x[|x| - 1];
      assert s[1..] == x' + "__" + y;
      SplitAfterPart(x', y);
      assert [x[0]] + x' == x;
    }
  }

  /** Decoding a key gives back the triple it was built from whenever the triple decodes
      faithfully. */
  lemma DecodeEncodeKey(from: string, text: string, to: string, count: nat)
    requires DecodesFaithfully(from, text, to)
    ensures DecodeKey(EncodeKey(from, text, to), count) == DecisionCount(from, Some(text), Some(to), count)
  {
    var rest := text + "__" + to;
    assert EncodeKey(from, text, to) == from + "__" + rest;
    SplitAfterPart(from, rest);
    SplitAfterPart(text, to);
    SplitWithoutSeparator(to);
  }

  /** A part without `__` is still not enough: a trailing `_` moves into the next part, and two
      different triples can share a key. */
  lemma TrailingUnderscoreMisdecodes()
    ensures DecodeKey(EncodeKey("A", "go_", "B"), 1) == DecisionCount("A", Some("go"), Some("_B"), 1)
    ensures EncodeKey("A_", "b", "C") == EncodeKey("A", "_b", "C")
  {
    assert EncodeKey("A", "go_", "B") == "A" + "__" + ("go" + "__" + "_B");
    SplitAfterPart("A", "go" + "__" + "_B");
    SplitAfterPart("go", "_B");
    SplitWithoutSeparator("_B");
  }

  // ---- What the decision counts mean ----

  /** The number of events that count as a decision. */
  function NumDecisions(events: seq<InteractionEvent>): nat {
    if events == [] then 0
    else NumDecisions(events[..|events| - 1]) + (if HasDecision(events[|events| - 1]) then 1 else 0)
  }

  function TotalChoices(counts: seq<DecisionCount>): nat {
    if counts == [] then 0 else TotalChoices(counts[..|counts| - 1]) + counts[|counts| - 1].choiceCount
  }

  /** The entry the reducer reports for the key of decision event `e`. */
  function KeyEntry(events: seq<InteractionEvent>, e: InteractionEvent): DecisionCount
    requires HasDecision(e)
  {
    DecodeKey(DecisionKey(e), ChoicesOfKey(events, DecisionKey(e)))
  }

  /** The entry for the choice `e` made, with the three parts it was recorded with and the
      number of events that made the same choice. */
  function ChoiceEntry(events: seq<InteractionEvent>, e: InteractionEvent): DecisionCount
    requires HasDecision(e)
  {
    var from := e.fromSceneId.value;
    var text := e.decisionText.value;
    var to := Render(e.toSceneId);
    DecisionCount(from, Some(text), Some(to), ChoicesOfTriple(events, from, text, to))
  }

  predicate IsKeyEntry(events: seq<InteractionEvent>, d: DecisionCount) {
    exists e :: e in events && HasDecision(e) && d == KeyEntry(events, e)
  }

  predicate IsChoiceEntry(events: seq<InteractionEvent>, d: DecisionCount) {
    exists e :: e in events && HasDecision(e) && d == ChoiceEntry(events, e)
  }

  /** Every decision event of `events` records a triple that decodes faithfully. */
  predicate AllDecodeFaithfully(events: seq<InteractionEvent>) {
    forall e :: e in events && HasDecision(e) ==>
      DecodesFaithfully(e.fromSceneId.value, e.decisionText.value, Render(e.toSceneId))
  }

  predicate HasKey(events: seq<InteractionEvent>, key: string) {
    exists e :: e in events && HasDecision(e) && DecisionKey(e) == key
  }

  lemma {:induction false} DecisionKeysLength(events: seq<InteractionEvent>)
    ensures |DecisionKeys(events)| == NumDecisions(events)
  {
    if events != [] {
      DecisionKeysLength(events[..|events| - 1]);
    }
  }

  lemma {:induction false} CountOfDecisionKeys(events: seq<InteractionEvent>, key: string)
    ensures Count(DecisionKeys(events), key) == ChoicesOfKey(events, key)
  {
    if events != [] {
      var p := events[..|events| - 1];
      var e := events[|events| - 1];
      CountOfDecisionKeys(p, key);
      var d := DecisionKeys(p);
      if HasDecision(e) {
        assert (d + [DecisionKey(e)])[..|d|] == d;
      } else {
        assert d + [] == d;
      }
    }
  }

  lemma {:induction false} InDecisionKeys(events: seq<InteractionEvent>, key: string)
    ensures key in DecisionKeys(events) <==> HasKey(events, key)
  {
    if events != [] {
      var p := events[..|events| - 1];
      var e := events[|events| - 1];
      InDecisionKeys(p, key);
      assert events == p + [e];
      assert forall x :: x in events <==> x in p || x == e;
    }
  }

  lemma {:induction false} TotalOfDecisionEntries(keys: seq<string>, all: seq<string>)
    requires forall j :: 0 <= j < |keys| ==> keys[j] in all
    ensures TotalChoices(DecisionEntries(keys, Counts(all))) == SumOfCounts(keys, all)
  {
    if keys != [] {
      var p := keys[..|keys| - 1];
      TotalOfDecisionEntries(p, all);
      var entries := DecisionEntries(keys, Counts(all));
      assert entries[..|entries| - 1] == DecisionEntries(p, Counts(all));
    }
  }

  /** The decision entries are exactly the decoded keys of the decision events, each with the
      number of events sharing its key, and their counts add up to the number of decisions. */
  lemma DecisionCountsExact(events: seq<InteractionEvent>)
    ensures var counts := AnalyticsOf(events).decisionCounts;
      && (forall e :: e in events && HasDecision(e) ==> KeyEntry(events, e) in counts)
      && (forall d :: d in counts ==> IsKeyEntry(events, d))
      && TotalChoices(counts) == NumDecisions(events)
  {
    var all := DecisionKeys(events);
    var keys := Dedup(all);
    var counts := AnalyticsOf(events).decisionCounts;
    DedupMembers(all);
    forall e | e in events && HasDecision(e) ensures KeyEntry(events, e) in counts {
      InDecisionKeys(events, DecisionKey(e));
      var j :| 0 <= j < |keys| && keys[j] == DecisionKey(e);
      CountOfDecisionKeys(events, keys[j]);
      assert counts[j] == KeyEntry(events, e);
    }
    forall d | d in counts ensures IsKeyEntry(events, d) {
      var j :| 0 <= j < |counts| && counts[j] == d;
      InDecisionKeys(events, keys[j]);
      var e :| e in events && HasDecision(e) && DecisionKey(e) == keys[j];
      CountOfDecisionKeys(events, keys[j]);
      assert d == KeyEntry(events, e);
    }
    TotalOfDecisionEntries(keys, all);
    SumOfCountsOverDedup(all);
    DecisionKeysLength(events);
  }

  /** Two triples that decode faithfully share a key only if they are equal. */
  lemma EncodeKeyInjective(f1: string, t1: string, d1: string, f2: string, t2: string, d2: string)
    requires DecodesFaithfully(f1, t1, d1) && DecodesFaithfully(f2, t2, d2)
    ensures EncodeKey(f1, t1, d1) == EncodeKey(f2, t2, d2) ==> f1 == f2 && t1 == t2 && d1 == d2
  {
    DecodeEncodeKey(f1, t1, d1, 0);
    DecodeEncodeKey(f2, t2, d2, 0);
  }

  lemma {:induction false} KeyCountIsChoiceCount(events: seq<InteractionEvent>, from: string, text: string, to: string)
    requires AllDecodeFaithfully(events) && DecodesFaithfully(from, text, to)
    ensures ChoicesOfKey(events, EncodeKey(from, text, to)) == ChoicesOfTriple(events, from, text, to)
  {
    if events != [] {
      var p := events[..|events| - 1];
      var e := events[|events| - 1];
      assert events == p + [e];
      assert forall x :: x in p ==> x in events;
      KeyCountIsChoiceCount(p, from, text, to);
      if HasDecision(e) {
        EncodeKeyInjective(e.fromSceneId.value, e.decisionText.value, Render(e.toSceneId), from, text, to);
      }
    }
  }

  /** When every recorded triple decodes faithfully, the decision entries are exactly the
      choices of the events, each with the number of events that made it. */
  lemma FaithfulDecisionCounts(events: seq<InteractionEvent>)
    requires AllDecodeFaithfully(events)
    ensures var counts := AnalyticsOf(events).decisionCounts;
      && (forall e :: e in events && HasDecision(e) ==> ChoiceEntry(events, e) in counts)
      && (forall d :: d in counts ==> IsChoiceEntry(events, d))
  {
    var counts := AnalyticsOf(events).decisionCounts;
    DecisionCountsExact(events);
    forall e | e in events && HasDecision(e) ensures KeyEntry(events, e) == ChoiceEntry(events, e) {
      var from, text, to := e.fromSceneId.value, e.decisionText.value, Render(e.toSceneId);
      KeyCountIsChoiceCount(events, from, text, to);
      DecodeEncodeKey(from, text, to, ChoicesOfTriple(events, from, text, to));
    }
    forall d | d in counts ensures IsChoiceEntry(events, d) {
      var e :| e in events && HasDecision(e) && d == KeyEntry(events, e);
    }
  }

  /** The triple of a decision entry, when its key decodes faithfully, is the one recorded. */
  lemma EntryTriple(events: seq<InteractionEvent>, j: nat) returns (e: InteractionEvent)
    requires AllDecodeFaithfully(events)
    requires j < |AnalyticsOf(events).decisionCounts|
    ensures e in events && HasDecision(e)
    ensures DecisionKey(e) == Dedup(DecisionKeys(events))[j]
    ensures var d := AnalyticsOf(events).decisionCounts[j];
      d.fromSceneId == e.fromSceneId.value && d.decisionText == e.decisionText
      && d.toSceneId == Some(Render(e.toSceneId))
  {
    var all := DecisionKeys(events);
    DedupMembers(all);
    var key := Dedup(all)[j];
    InDecisionKeys(events, key);
    e :| e in events && HasDecision(e) && DecisionKey(e) == key;
    DecodeEncodeKey(e.fromSceneId.value, e.decisionText.value, Render(e.toSceneId), Count(all, key));
  }

  /** No two decision entries report the same choice when every triple decodes faithfully. */
  lemma FaithfulDecisionsDistinct(events: seq<InteractionEvent>)
    requires AllDecodeFaithfully(events)
    ensures var counts := AnalyticsOf(events).decisionCounts;
      forall j, k :: 0 <= j < k < |counts| ==>
        (counts[j].fromSceneId, counts[j].decisionText, counts[j].toSceneId)
          != (counts[k].fromSceneId, counts[k].decisionText, counts[k].toSceneId)
  {
    var counts := AnalyticsOf(events).decisionCounts;
    var keys := Dedup(DecisionKeys(events));
    DedupMembers(DecisionKeys(events));
    forall j, k | 0 <= j < k < |counts|
      ensures (counts[j].fromSceneId, counts[j].decisionText, counts[j].toSceneId)
              != (counts[k].fromSceneId, counts[k].decisionText, counts[k].toSceneId)
    {
      var ej := EntryTriple(events, j);
      var ek := EntryTriple(events, k);
      assert keys[j] != keys[k];
      EncodeKeyInjective(ej.fromSceneId.value, ej.decisionText.value, Render(ej.toSceneId),
                         ek.fromSceneId.value, ek.decisionText.value, Render(ek.toSceneId));
    }
  }

  /** Two distinct keys, each seen once, give one entry apiece, in order. */
  lemma {:induction false} TwoDistinctKeys(k1: string, k2: string)
    requires k1 != k2
    ensures Dedup([k1, k2]) == [k1, k2]
    ensures DecisionEntries(Dedup([k1, k2]), Counts([k1, k2])) == [DecodeKey(k1, 1), DecodeKey(k2, 1)]
  {
    var one, two := [k1], [k1, k2];
    assert two[..|two| - 1] == one && two[|two| - 1] == k2;
    assert one[..|one| - 1] == [] && one[|one| - 1] == k1;
    assert Dedup(one) == [k1];
    assert Count(one, k1) == 1 && Count(one, k2) == 0;
    assert Count(two, k1) == 1 && Count(two, k2) == 1;
    var r := DecisionEntries(two, Counts(two));
    assert r[0] == DecodeKey(k1, 1) && r[1] == DecodeKey(k2, 1);
  }

  /** The two events of the scenario below, with what the reducer reads off them. */
  lemma {:induction false} ScenarioStreams(e1: InteractionEvent, e2: InteractionEvent)
    requires e1.fromSceneId == Some("A") && e1.toSceneId == Some("B") && e1.decisionText == Some("next")
    requires e2.fromSceneId == Some("B") && e2.toSceneId == None && e2.decisionText == Some("finish")
    ensures Destinations([e1, e2]) == ["B"]
    ensures DecisionKeys([e1, e2]) == [EncodeKey("A", "next", "B"), EncodeKey("B", "finish", "null")]
  {
    var one, two := [e1], [e1, e2];
    assert two[..|two| - 1] == one && two[|two| - 1] == e2;
    assert one[..|one| - 1] == [] && one[|one| - 1] == e1;
    assert HasDestination(e1) && !HasDestination(e2);
    assert Destinations(one) == ["B"];
    assert DecisionKeys(one) == [EncodeKey("A", "next", "B")];
  }

  /** The visit entries of a single visit of B. */
  lemma {:induction false} ScenarioVisits()
    ensures VisitEntries(Dedup(["B"]), Counts(["B"])) == [SceneVisit("B", "B", 1)]
  {
    var b := ["B"];
    assert b[..|b| - 1] == [] && b[|b| - 1] == "B";
    assert Dedup(b) == b && Count(b, "B") == 1;
    assert VisitTitle("B") == "B";
    var r := VisitEntries(b, Counts(b));
    assert r[0] == SceneVisit("B", "B", 1);
  }

  /** A part without any `_` decodes faithfully in every position. */
  lemma NoUnderscoreAtAll(s: string)
    requires '_' !in s
    ensures !ContainsSeparator(s) && !EndsWithUnderscore(s)
  {
  }

  /** The scenario's two keys decode to the triples they were built from. */
  lemma {:induction false} ScenarioDecisions()
    ensures DecodeKey(EncodeKey("A", "next", "B"), 1) == DecisionCount("A", Some("next"), Some("B"), 1)
    ensures DecodeKey(EncodeKey("B", "finish", "null"), 1) == DecisionCount("B", Some("finish"), Some("null"), 1)
  {
    NoUnderscoreAtAll("A");
    NoUnderscoreAtAll("B");
    NoUnderscoreAtAll("next");
    NoUnderscoreAtAll("finish");
    NoUnderscoreAtAll("null");
    DecodeEncodeKey("A", "next", "B", 1);
    DecodeEncodeKey("B", "finish", "null", 1);
  }

  /** A lesson walked from A to B by choosing "next", then ended at B by choosing "finish" with
      no destination. The ending decision is counted as well, under the key `B__finish__null`,
      so two decision entries come out, not one. */
  lemma TerminalDecisionIsCounted()
    ensures var events := [InteractionEvent("1", "s", "L", Some("A"), Some("B"), Some("next"), None),
                           InteractionEvent("2", "s", "L", Some("B"), None, Some("finish"), None)];
      var a := AnalyticsOf(events);
      && a.sceneVisits == [SceneVisit("B", "B", 1)]
      && a.decisionCounts == [DecisionCount("A", Some("next"), Some("B"), 1),
                              DecisionCount("B", Some("finish"), Some("null"), 1)]
  {
    var e1 := InteractionEvent("1", "s", "L", Some("A"), Some("B"), Some("next"), None);
    var e2 := InteractionEvent("2", "s", "L", Some("B"), None, Some("finish"), None);
    var k1, k2 := EncodeKey("A", "next", "B"), EncodeKey("B", "finish", "null");
    ScenarioStreams(e1, e2);
    ScenarioVisits();
    assert k1[0] != k2[0];
    TwoDistinctKeys(k1, k2);
    ScenarioDecisions();
  }

  /** An empty event list gives empty analytics. */
  lemma AnalyticsOfNoEvents()
    ensures AnalyticsOf([]) == AnalyticsData([], [], [], 0)
  {
  }
}
