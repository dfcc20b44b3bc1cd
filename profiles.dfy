/** User profiles: the row of `profiles`, the `User` record the service hands out
    (`mapProfileToUser`), the row `saveUser` writes back, the identifier lookup of `getUser`,
    and the lesson-completion toggle of `toggleLessonComplete`. */
module Profiles {
  import opened Common
  import opened Seqs

  /** The `progress` JSON column. */
  datatype Progress = Progress(completedLessonIds: seq<string>, points: int, achievements: seq<string>)

  /** `{ completedLessonIds: [], points: 0, achievements: [] }` */
  const DefaultProgress: Progress := Progress([], 0, [])

  /** The display name of a profile without one ("user"). */
  const DefaultName: string := "مستخدم"

  /** The points a completed lesson is worth. */
  const PointsPerLesson: int := 10

  datatype Subscription = Free | Premium

  /** A row of `profiles`, restricted to the columns this model follows. SQL NULL is `None`. */
  datatype Profile = Profile(
    id: string,
    name: Option<string>,
    email: Option<string>,
    role: string,
    subscriptionStatus: Option<string>,
    progress: Option<Progress>,
    lastSeen: Option<int>)

  datatype User = User(
    uid: string,
    name: string,
    email: Option<string>,
    role: string,
    subscription: Subscription,
    progress: Progress,
    lastSeen: Option<int>)

  /** `mapProfileToUser`: an empty or missing name and a missing progress fall back to their
      defaults, and only the exact status `premium` makes a premium subscription. */
  function MapProfileToUser(p: Profile): (u: User)
    ensures u.uid == p.id && u.email == p.email && u.role == p.role && u.lastSeen == p.lastSeen
    ensures u.name != ""
    ensures Truthy(p.name) ==> u.name == p.name.value
    ensures !Truthy(p.name) ==> u.name == DefaultName
    ensures u.subscription == Premium <==> p.subscriptionStatus == Some("premium")
    ensures p.progress.Some? ==> u.progress == p.progress.value
    ensures p.progress.None? ==> u.progress == DefaultProgress
  {
    User(
      p.id,
      OrDefault(p.name.GetOr(""), DefaultName),
      p.email,
      p.role,
      if p.subscriptionStatus == Some("premium") then Premium else Free,
      p.progress.GetOr(DefaultProgress),
      p.lastSeen)
  }

  function SubscriptionStatus(s: Subscription): string {
    match s
    case Premium => "premium"
    case Free => "free"
  }

  /** The row `saveUser` upserts for `u`, stamped with the time of the call. */
  function ProfileOfUser(u: User, now: int): Profile {
    Profile(u.uid, Some(u.name), u.email, u.role, Some(SubscriptionStatus(u.subscription)),
            Some(u.progress), Some(now))
  }

  /** Saving a user and loading it again gives back the same user, stamped with the time of
      the save, as long as its name is not empty; an empty name comes back as the default. */
  lemma SaveThenLoad(u: User, now: int)
    ensures u.name != "" ==> MapProfileToUser(ProfileOfUser(u, now)) == u.(lastSeen := Some(now))
    ensures u.name == "" ==> MapProfileToUser(ProfileOfUser(u, now)) == u.(lastSeen := Some(now), name := DefaultName)
  {
  }

  /** A user loaded from any row survives a save and a reload unchanged except for its
      last-seen time. */
  lemma LoadSaveLoad(p: Profile, now: int)
    ensures var u := MapProfileToUser(p);
      MapProfileToUser(ProfileOfUser(u, now)) == u.(lastSeen := Some(now))
  {
    SaveThenLoad(MapProfileToUser(p), now);
  }

  // ---- `getUser` ----

  /** `identifier.includes('@')` */
  predicate IsEmail(identifier: string) {
    '@' in identifier
  }

  /** Every row is stored under its own id. */
  predicate KeysMatch(profiles: map<string, Profile>) {
    forall id :: id in profiles ==> profiles[id].id == id
  }

  /** The ids of the rows whose email is `email`. */
  function WithEmail(profiles: map<string, Profile>, email: string): (ids: set<string>)
    ensures forall id :: id in ids <==> id in profiles && profiles[id].email == Some(email)
  {
    set id | id in profiles && profiles[id].email == Some(email)
  }

  lemma SingletonMembers(s: set<string>, a: string, b: string)
    requires |s| == 1 && a in s && b in s
    ensures a == b
  {
    if a != b {
      assert {a, b} <= s;
      assert |{a, b}| == 2;
      SubsetCardinality({a, b}, s);
    }
  }

  lemma SubsetCardinality(a: set<string>, b: set<string>)
    requires a <= b
    ensures |a| <= |b|
  {
    assert b == a + (b - a);
  }

  /** The row `select('*').eq(column, identifier).single()` finds: the email column when the
      identifier contains `@`, the id otherwise; `.single()` fails on no row and on several. */
  function LookupProfile(profiles: map<string, Profile>, identifier: string): (r: Option<Profile>)
  {
    if IsEmail(identifier) then
      var ids := WithEmail(profiles, identifier);
      if |ids| == 1 then
        var id :| id in ids;
        assert forall other :: other in ids ==> other == id by {
          forall other | other in ids ensures other == id { SingletonMembers(ids, id, other); }
        }
        Some(profiles[id])
      else None
    else if identifier in profiles then Some(profiles[identifier])
    else None
  }

  /** What the lookup finds: a row with that email, the only one, or the row with that id. */
  lemma LookupFinds(profiles: map<string, Profile>, identifier: string)
    requires KeysMatch(profiles)
    ensures match LookupProfile(profiles, identifier)
      case Some(p) =>
        && p.id in profiles && profiles[p.id] == p
        && (IsEmail(identifier) ==> p.email == Some(identifier) && WithEmail(profiles, identifier) == {p.id})
        && (!IsEmail(identifier) ==> p.id == identifier)
      case None =>
        if IsEmail(identifier) then |WithEmail(profiles, identifier)| != 1 else identifier !in profiles
  {
    if IsEmail(identifier) {
      var ids := WithEmail(profiles, identifier);
      if |ids| == 1 {
        var p := LookupProfile(profiles, identifier).value;
        assert p.id in ids;
        forall other | other in ids ensures other == p.id { SingletonMembers(ids, p.id, other); }
      }
    }
  }

  // ---- `toggleLessonComplete` ----

  /** The progress after toggling `lessonId`: `new Set(ids)` keeps each id once in order of
      first occurrence; a present id is deleted and costs the points, an absent one is added
      at the end and earns them. */
  function Toggled(p: Progress, lessonId: string): Progress {
    var completed := Dedup(p.completedLessonIds);
    if lessonId in completed then
      p.(completedLessonIds := Remove(completed, lessonId), points := p.points - PointsPerLesson)
    else
      p.(completedLessonIds := completed + [lessonId], points := p.points + PointsPerLesson)
  }

  /** Toggling flips the membership of the lesson, keeps every other lesson's membership,
      moves the points by ten in the matching direction, and leaves no duplicates. */
  lemma ToggleFlips(p: Progress, lessonId: string)
    ensures var r := Toggled(p, lessonId);
      && (lessonId in r.completedLessonIds <==> lessonId !in p.completedLessonIds)
      && (forall other :: other != lessonId ==>
            (other in r.completedLessonIds <==> other in p.completedLessonIds))
      && r.points == (if lessonId in p.completedLessonIds then p.points - 10 else p.points + 10)
      && NoDuplicates(r.completedLessonIds)
      && r.achievements == p.achievements
  {
    var completed := Dedup(p.completedLessonIds);
    DedupMembers(p.completedLessonIds);
    if lessonId !in completed {
      assert NoDuplicates(completed + [lessonId]) by {
        var s := completed + [lessonId];
        forall i, j | 0 <= i < j < |s| ensures s[i] != s[j] {
          if j == |completed| { assert s[i] == completed[i]; }
        }
      }
    }
  }

  /** Toggling the same lesson twice restores the set of completed lessons and the points. */
  lemma ToggleTwice(p: Progress, lessonId: string)
    ensures var r := Toggled(Toggled(p, lessonId), lessonId);
      && (forall id :: id in r.completedLessonIds <==> id in p.completedLessonIds)
      && r.points == p.points
      && r.achievements == p.achievements
  {
    ToggleFlips(p, lessonId);
    ToggleFlips(Toggled(p, lessonId), lessonId);
  }

  /** On a list with no duplicates that does not hold the lesson, toggling twice gives back
      the very same list: the lesson is appended and then deleted again. */
  lemma ToggleTwiceAbsent(p: Progress, lessonId: string)
    requires NoDuplicates(p.completedLessonIds) && lessonId !in p.completedLessonIds
    ensures Toggled(Toggled(p, lessonId), lessonId) == p
  {
    DedupOfDistinct(p.completedLessonIds);
    var once := Toggled(p, lessonId);
    ToggleFlips(p, lessonId);
    DedupOfDistinct(once.completedLessonIds);
    RemoveLast(p.completedLessonIds, lessonId);
  }

  lemma {:induction false} DedupOfDistinct(xs: seq<string>)
    requires NoDuplicates(xs)
    ensures Dedup(xs) == xs
  {
    if xs != [] {
      var p := xs[..|xs| - 1];
      assert NoDuplicates(p) by {
        forall i, j | 0 <= i < j < |p| ensures p[i] != p[j] { assert p[i] == xs[i] && p[j] == xs[j]; }
      }
      DedupOfDistinct(p);
      assert xs[|xs| - 1] !in p by {
        forall j | 0 <= j < |p| ensures p[j] != xs[|xs| - 1] { assert p[j] == xs[j]; }
      }
      assert xs == p + [xs[|xs| - 1]];
    }
  }

  lemma {:induction false} RemoveLast(xs: seq<string>, x: string)
    requires x !in xs
    ensures Remove(xs + [x], x) == xs
  {
    if xs != [] {
      assert (xs + [x])[1..] == xs[1..] + [x];
      RemoveLast(xs[1..], x);
      assert [xs[0]] + xs[1..] == xs;
    }
  }
}
