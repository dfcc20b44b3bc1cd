/** Stable sorting by an integer key (`Array.prototype.sort` with a numeric comparator, which
    is stable) and the shaping of the curriculum tree in `getCurriculum`: units ordered by
    `order` (missing as 0), the lessons of each unit by creation time. */
module Sorting {
  import opened Seqs

  predicate SortedBy<T>(xs: seq<T>, key: T -> int) {
    forall i, j :: 0 <= i < j < |xs| ==> key(xs[i]) <= key(xs[j])
  }

  /** The elements of `xs` whose key is `k`, in order. */
  function WithKey<T>(xs: seq<T>, key: T -> int, k: int): seq<T> {
    if xs == [] then []
    else (if key(xs[0]) == k then [xs[0]] else []) + WithKey(xs[1..], key, k)
  }

  /** Puts `x` in front of the first element whose key is not smaller. */
  function Insert<T>(x: T, ys: seq<T>, key: T -> int): seq<T> {
    if ys == [] then [x]
    else if key(x) <= key(ys[0]) then [x] + ys
    else [ys[0]] + Insert(x, ys[1..], key)
  }

  /** `xs.sort((a, b) => key(a) - key(b))` */
  function SortBy<T>(xs: seq<T>, key: T -> int): seq<T> {
    if xs == [] then [] else Insert(xs[0], SortBy(xs[1..], key), key)
  }

  /** Every key of `xs` is at least `b`. */
  predicate KeysAtLeast<T>(xs: seq<T>, key: T -> int, b: int) {
    forall j :: 0 <= j < |xs| ==> b <= key(xs[j])
  }

  lemma {:induction false} InsertKeysAtLeast<T>(x: T, ys: seq<T>, key: T -> int, b: int)
    requires KeysAtLeast(ys, key, b) && b <= key(x)
    ensures KeysAtLeast(Insert(x, ys, key), key, b)
  {
    if ys != [] && key(x) > key(ys[0]) {
      InsertKeysAtLeast(x, ys[1..], key, b);
    }
  }

  lemma {:induction false} InsertSorted<T>(x: T, ys: seq<T>, key: T -> int)
    requires SortedBy(ys, key)
    ensures SortedBy(Insert(x, ys, key), key)
  {
    if ys != [] && key(x) > key(ys[0]) {
      InsertSorted(x, ys[1..], key);
      InsertKeysAtLeast(x, ys[1..], key, key(ys[0]));
    }
  }

  lemma {:induction false} InsertPermutes<T>(x: T, ys: seq<T>, key: T -> int)
    ensures multiset(Insert(x, ys, key)) == multiset(ys) + multiset{x}
  {
    if ys != [] {
      assert ys == [ys[0]] + ys[1..];
      if key(x) > key(ys[0]) {
        InsertPermutes(x, ys[1..], key);
      }
    }
  }

  lemma {:induction false} InsertWithKey<T>(x: T, ys: seq<T>, key: T -> int, k: int)
    ensures WithKey(Insert(x, ys, key), key, k)
         == (if key(x) == k then [x] else []) + WithKey(ys, key, k)
  {
    if ys != [] {
      var r := Insert(x, ys, key);
      var hx: seq<T> := if key(x) == k then [x] else [];
      var hy: seq<T> := if key(ys[0]) == k then [ys[0]] else [];
      assert WithKey(ys, key, k) == hy + WithKey(ys[1..], key, k);
      if key(x) <= key(ys[0]) {
        assert r == [x] + ys;
        assert r[0] == x && r[1..] == ys;
      } else {
        var tail := Insert(x, ys[1..], key);
        assert r == [ys[0]] + tail;
        assert r[0] == ys[0] && r[1..] == tail;
        InsertWithKey(x, ys[1..], key, k);
        assert WithKey(r, key, k) == hy + (hx + WithKey(ys[1..], key, k));
        assert hx == [] || hy == [];
      }
    }
  }

  /** The sort orders by key, is a permutation, and is stable: the elements of each key keep
      their relative order. */
  lemma {:induction false} SortByCorrect<T>(xs: seq<T>, key: T -> int)
    ensures SortedBy(SortBy(xs, key), key)
    ensures multiset(SortBy(xs, key)) == multiset(xs)
    ensures forall k :: WithKey(SortBy(xs, key), key, k) == WithKey(xs, key, k)
  {
    if xs != [] {
      SortByCorrect(xs[1..], key);
      InsertSorted(xs[0], SortBy(xs[1..], key), key);
      InsertPermutes(xs[0], SortBy(xs[1..], key), key);
      assert xs == [xs[0]] + xs[1..];
      forall k ensures WithKey(SortBy(xs, key), key, k) == WithKey(xs, key, k) {
        InsertWithKey(xs[0], SortBy(xs[1..], key), key, k);
      }
    }
  }

  /** Sorting and then transforming gives the same as transforming and then sorting, when the
      transformation keeps the key. */
  lemma {:induction false} MapInsert<A, B>(x: A, ys: seq<A>, keyA: A -> int, f: A -> B, keyB: B -> int)
    requires forall a :: keyB(f(a)) == keyA(a)
    ensures Map(Insert(x, ys, keyA), f) == Insert(f(x), Map(ys, f), keyB)
  {
    if ys != [] {
      assert Map(ys, f)[1..] == Map(ys[1..], f);
      if keyA(x) > keyA(ys[0]) {
        MapInsert(x, ys[1..], keyA, f, keyB);
      }
    }
  }

  lemma {:induction false} MapSortBy<A, B>(xs: seq<A>, keyA: A -> int, f: A -> B, keyB: B -> int)
    requires forall a :: keyB(f(a)) == keyA(a)
    ensures Map(SortBy(xs, keyA), f) == SortBy(Map(xs, f), keyB)
  {
    if xs != [] {
      MapSortBy(xs[1..], keyA, f, keyB);
      assert Map(xs, f)[1..] == Map(xs[1..], f);
      MapInsert(xs[0], SortBy(xs[1..], keyA), keyA, f, keyB);
    }
  }
}

module Curriculum {
  import opened Common
  import opened Seqs
  import opened Sorting

  /** A fetched `lessons` row; `created_at` as a timestamp in milliseconds. */
  datatype LessonView = LessonView(id: string, title: string, createdAt: int)

  /** A fetched `units` row with its nested lessons (`null` when the embedding is missing). */
  datatype FetchedUnit = FetchedUnit(id: string, title: string, order: Option<int>, lessons: Option<seq<LessonView>>)

  datatype FetchedCurriculum = FetchedCurriculum(id: string, title: string, units: Option<seq<FetchedUnit>>)

  datatype UnitView = UnitView(id: string, title: string, order: Option<int>, lessons: seq<LessonView>)

  datatype Curriculum = Curriculum(id: string, title: string, units: seq<UnitView>)

  /** `a.order || 0` */
  function FetchedUnitOrder(u: FetchedUnit): int { u.order.GetOr(0) }

  function UnitOrder(u: UnitView): int { u.order.GetOr(0) }

  /** `new Date(a.created_at).getTime()` */
  function CreatedAt(l: LessonView): int { l.createdAt }

  /** `{ ...u, lessons: (u.lessons || []).sort(byCreationTime) }` */
  function ShapeUnit(u: FetchedUnit): UnitView {
    UnitView(u.id, u.title, u.order, SortBy(u.lessons.GetOr([]), CreatedAt))
  }

  function ShapeCurriculum(c: FetchedCurriculum): Curriculum {
    Curriculum(c.id, c.title, Map(SortBy(c.units.GetOr([]), FetchedUnitOrder), ShapeUnit))
  }

  /** `getCurriculum` on what the query returned (`None` when it failed: the error is caught
      and the list is empty). The curricula themselves arrive ordered by the query. */
  function GetCurriculum(fetched: Option<seq<FetchedCurriculum>>): (r: seq<Curriculum>)
    ensures fetched.None? ==> r == []
    ensures fetched.Some? ==> |r| == |fetched.value| && forall i :: 0 <= i < |r| ==>
      r[i].id == fetched.value[i].id && r[i].title == fetched.value[i].title
  {
    match fetched
    case None => []
    case Some(rows) => Map(rows, ShapeCurriculum)
  }

  /** Every curriculum keeps its identity; its units are those of its row, ordered by `order`
      with a missing order counting as 0 and ties in fetched order; the lessons of each unit
      are those of its row, ordered by creation time with ties in fetched order. */
  lemma CurriculumShaped(fetched: Option<seq<FetchedCurriculum>>)
    ensures fetched.None? ==> GetCurriculum(fetched) == []
    ensures fetched.Some? ==> var r := GetCurriculum(fetched); var rows := fetched.value;
      && |r| == |rows|
      && forall i :: 0 <= i < |r| ==>
        && r[i].id == rows[i].id && r[i].title == rows[i].title
        && SortedBy(r[i].units, UnitOrder)
        && multiset(r[i].units) == multiset(Map(rows[i].units.GetOr([]), ShapeUnit))
        && (forall k :: WithKey(r[i].units, UnitOrder, k) == WithKey(Map(rows[i].units.GetOr([]), ShapeUnit), UnitOrder, k))
        && (forall u :: u in r[i].units ==> SortedBy(u.lessons, CreatedAt))
  {
    if fetched.Some? {
      var r := GetCurriculum(fetched);
      var rows := fetched.value;
      forall i | 0 <= i < |r|
        ensures SortedBy(r[i].units, UnitOrder)
        ensures multiset(r[i].units) == multiset(Map(rows[i].units.GetOr([]), ShapeUnit))
        ensures forall k :: WithKey(r[i].units, UnitOrder, k) == WithKey(Map(rows[i].units.GetOr([]), ShapeUnit), UnitOrder, k)
        ensures forall u :: u in r[i].units ==> SortedBy(u.lessons, CreatedAt)
      {
        var units := rows[i].units.GetOr([]);
        MapSortBy(units, FetchedUnitOrder, ShapeUnit, UnitOrder);
        SortByCorrect(Map(units, ShapeUnit), UnitOrder);
        forall u | u in r[i].units ensures SortedBy(u.lessons, CreatedAt) {
          var j :| 0 <= j < |r[i].units| && r[i].units[j] == u;
          SortByCorrect(SortBy(units, FetchedUnitOrder)[j].lessons.GetOr([]), CreatedAt);
        }
      }
    }
  }

  /** Each unit's lessons are exactly those of its row, each timestamp keeping its lessons in
      fetched order. */
  lemma LessonsShaped(u: FetchedUnit)
    ensures multiset(ShapeUnit(u).lessons) == multiset(u.lessons.GetOr([]))
    ensures forall t :: WithKey(ShapeUnit(u).lessons, CreatedAt, t) == WithKey(u.lessons.GetOr([]), CreatedAt, t)
  {
    SortByCorrect(u.lessons.GetOr([]), CreatedAt);
  }
}
