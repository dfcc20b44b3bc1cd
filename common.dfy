/** Small value types shared by the whole model: optional values, the failure of a
    store call, and the JavaScript string tests the service relies on. */
module Common {

  /** A value that may be absent (a JavaScript `undefined`/`null`, or a row `.single()` did not find). */
  datatype Option<T> = None | Some(value: T) {
    function GetOr(default: T): T {
      match this
      case Some(v) => v
      case None => default
    }
  }

  /** Why a store call rejected: an `update ... .single()` that matched no row. */
  datatype StoreError = NotFound

  /** The outcome of a call that may reject. */
  datatype Result<T> = Ok(value: T) | Err(error: StoreError)

  /** `s.startsWith(p)` */
  predicate StartsWith(s: string, p: string) {
    |p| <= |s| && s[..|p|] == p
  }

  /** JavaScript truthiness of an optional string field: present and non-empty. */
  predicate Truthy(o: Option<string>) {
    o.Some? && o.value != ""
  }

  /** `s || d` for a string `s`: the empty string (or an absent value) falls back to `d`. */
  function OrDefault(s: string, d: string): (r: string)
    ensures r == s || r == d
    ensures s != "" ==> r == s
  {
    if s == "" then d else s
  }
}

/** Generic facts about sequences that the aggregations and the completion set need. */
module Seqs {

  /** `xs.map(f)` */
  function Map<A, B>(xs: seq<A>, f: A -> B): (ys: seq<B>)
    ensures |ys| == |xs| && forall i :: 0 <= i < |xs| ==> ys[i] == f(xs[i])
  {
    seq(|xs|, i requires 0 <= i < |xs| => f(xs[i]))
  }

  /** Number of occurrences of `x` in `xs`. */
  function Count<T(==,!new)>(xs: seq<T>, x: T): nat {
    if xs == [] then 0
    else Count(xs[..|xs| - 1], x) + (if xs[|xs| - 1] == x then 1 else 0)
  }

  predicate NoDuplicates<T(==,!new)>(xs: seq<T>) {
    forall i, j :: 0 <= i < j < |xs| ==> xs[i] != xs[j]
  }

  /** The distinct elements of `xs` in order of first occurrence; this is the iteration order
      of a JavaScript `Set` built from `xs`, and of the keys of an object filled from `xs`. */
  function Dedup<T(==,!new)>(xs: seq<T>): seq<T> {
    if xs == [] then []
    else
      var prefix := Dedup(xs[..|xs| - 1]);
      var last := xs[|xs| - 1];
      if last in prefix then prefix else prefix + [last]
  }

  /** `Dedup` keeps every element once and adds none. */
  lemma {:induction false} DedupMembers<T(!new)>(xs: seq<T>)
    ensures NoDuplicates(Dedup(xs))
    ensures forall x :: x in Dedup(xs) <==> x in xs
    ensures |Dedup(xs)| <= |xs|
  {
    if xs != [] {
      var p := xs[..|xs| - 1];
      var last := xs[|xs| - 1];
      DedupMembers(p);
      assert xs == p + [last];
      assert forall x :: x in xs <==> x in p || x == last;
    }
  }

  /** `xs` without any occurrence of `x`, the rest in order (a `Set.delete`). */
  function Remove<T(==,!new)>(xs: seq<T>, x: T): (r: seq<T>)
    ensures forall y :: y in r <==> y in xs && y != x
    ensures NoDuplicates(xs) ==> NoDuplicates(r)
  {
    if xs == [] then []
    else
      var rest := Remove(xs[1..], x);
      if xs[0] == x then rest
      else
        assert NoDuplicates(xs) ==> xs[0] !in xs[1..] && NoDuplicates(xs[1..]) by {
          if NoDuplicates(xs) {
            forall j | 0 <= j < |xs[1..]| ensures xs[1..][j] != xs[0] { assert xs[1..][j] == xs[j + 1]; }
          }
        }
        [xs[0]] + rest
  }

  lemma {:induction false} CountZeroIffAbsent<T(!new)>(xs: seq<T>, x: T)
    ensures Count(xs, x) == 0 <==> x !in xs
  {
    if xs != [] {
      var p := xs[..|xs| - 1];
      CountZeroIffAbsent(p, x);
      assert xs == p + [xs[|xs| - 1]];
    }
  }

  lemma {:induction false} CountDistinctMember<T(!new)>(xs: seq<T>, x: T)
    requires NoDuplicates(xs) && x in xs
    ensures Count(xs, x) == 1
  {
    var p := xs[..|xs| - 1];
    var last := xs[|xs| - 1];
    assert xs == p + [last];
    if last == x {
      assert x !in p by {
        forall j | 0 <= j < |p| ensures p[j] != x { assert p[j] == xs[j]; }
      }
      CountZeroIffAbsent(p, x);
    } else {
      assert x in p;
      assert NoDuplicates(p) by {
        forall i, j | 0 <= i < j < |p| ensures p[i] != p[j] { assert p[i] == xs[i] && p[j] == xs[j]; }
      }
      CountDistinctMember(p, x);
    }
  }

  /** The sum over the keys `ks` of how often each occurs in `xs`. */
  function SumOfCounts<T(==,!new)>(ks: seq<T>, xs: seq<T>): nat {
    if ks == [] then 0 else SumOfCounts(ks[..|ks| - 1], xs) + Count(xs, ks[|ks| - 1])
  }

  lemma {:induction false} SumOfCountsAppend<T(!new)>(ks: seq<T>, xs: seq<T>, y: T)
    ensures SumOfCounts(ks, xs + [y]) == SumOfCounts(ks, xs) + Count(ks, y)
  {
    if ks != [] {
      var p := ks[..|ks| - 1];
      SumOfCountsAppend(p, xs, y);
      assert (xs + [y])[..|xs + [y]| - 1] == xs;
    }
  }

  /** Counting every distinct element of `xs` once, weighted by its number of occurrences,
      accounts for every element of `xs` exactly once. */
  lemma {:induction false} SumOfCountsOverDedup<T(!new)>(xs: seq<T>)
    ensures SumOfCounts(Dedup(xs), xs) == |xs|
  {
    if xs != [] {
      var p := xs[..|xs| - 1];
      var y := xs[|xs| - 1];
      assert xs == p + [y];
      var d := Dedup(p);
      DedupMembers(p);
      SumOfCountsOverDedup(p);
      SumOfCountsAppend(d, p, y);
      if y in d {
        CountDistinctMember(d, y);
      } else {
        CountZeroIffAbsent(d, y);
        CountZeroIffAbsent(p, y);
        assert (d + [y])[..|d + [y]| - 1] == d;
      }
    }
  }

  /** The number of occurrences of every element of `xs`. */
  function Counts(xs: seq<string>): (m: map<string, nat>)
    ensures forall k :: k in m <==> k in xs
  {
    map k | k in xs :: Count(xs, k)
  }

  /** `counts` and `order` are what a JavaScript object used as a counter holds after
      `counts[x] = (counts[x] || 0) + 1` for every `x` of `xs`: the number of occurrences of
      each element, and the keys in insertion order. */
  ghost predicate Tallies(xs: seq<string>, counts: map<string, nat>, order: seq<string>) {
    && order == Dedup(xs)
    && (forall k :: k in counts <==> k in xs)
    && (forall k :: k in counts ==> counts[k] == Count(xs, k))
  }

  /** A tally holds exactly the counts of its elements. */
  lemma TalliesAreCounts(xs: seq<string>, counts: map<string, nat>, order: seq<string>)
    requires Tallies(xs, counts, order)
    ensures counts == Counts(xs)
  {
  }

  /** One more element adds one to its own count and changes no other. */
  lemma CountStep(xs: seq<string>, x: string, k: string)
    ensures Count(xs + [x], k) == Count(xs, k) + (if k == x then 1 else 0)
  {
    var ys := xs + [x];
    assert ys[..|ys| - 1] == xs && ys[|ys| - 1] == x;
  }

  lemma TalliesStep(xs: seq<string>, counts: map<string, nat>, order: seq<string>, x: string)
    requires Tallies(xs, counts, order)
    ensures Tallies(xs + [x], counts[x := (if x in counts then counts[x] else 0) + 1],
                    if x in counts then order else order + [x])
  {
    var ys := xs + [x];
    assert ys[..|ys| - 1] == xs && ys[|ys| - 1] == x;
    assert forall k :: k in ys <==> k in xs || k == x;
    DedupMembers(xs);
    forall k ensures Count(ys, k) == Count(xs, k) + (if k == x then 1 else 0) {
      CountStep(xs, x, k);
    }
    if x !in counts {
      CountZeroIffAbsent(xs, x);
    }
  }
}
