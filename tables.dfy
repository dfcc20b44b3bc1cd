/** A table keyed by a text id, held as its rows in storage order: finding a row by id
    (`.eq('id', id)`), and the facts that keep ids unique when a row is rewritten, appended or
    deleted. */
module Tables {
  import opened Common
  import opened Seqs

  /** No two rows share an id (the primary key). */
  predicate UniqueIds<T>(rows: seq<T>, idOf: T -> string) {
    forall i, j :: 0 <= i < j < |rows| ==> idOf(rows[i]) != idOf(rows[j])
  }

  /** The position of the row with id `id`, if any. */
  function IndexOf<T>(rows: seq<T>, idOf: T -> string, id: string): (r: Option<nat>)
    ensures r.Some? ==> r.value < |rows| && idOf(rows[r.value]) == id
    ensures r.None? ==> forall i :: 0 <= i < |rows| ==> idOf(rows[i]) != id
  {
    if rows == [] then None
    else if idOf(rows[0]) == id then Some(0)
    else
      match IndexOf(rows[1..], idOf, id)
      case None =>
        assert forall i :: 1 <= i < |rows| ==> rows[i] == rows[1..][i - 1];
        None
      case Some(i) => Some(i + 1)
  }

  /** With unique ids, the row at position `i` is the one found under its id. */
  lemma IndexOfUnique<T>(rows: seq<T>, idOf: T -> string, i: nat)
    requires UniqueIds(rows, idOf) && i < |rows|
    ensures IndexOf(rows, idOf, idOf(rows[i])) == Some(i)
  {
    var r := IndexOf(rows, idOf, idOf(rows[i]));
    assert r.Some?;
  }

  /** The row with id `id`, if any. */
  function Find<T>(rows: seq<T>, idOf: T -> string, id: string): (r: Option<T>)
    ensures r.Some? ==> r.value in rows && idOf(r.value) == id
    ensures r.None? ==> forall i :: 0 <= i < |rows| ==> idOf(rows[i]) != id
  {
    match IndexOf(rows, idOf, id)
    case Some(i) => Some(rows[i])
    case None => None
  }

  /** Rewriting a row without changing its id keeps the ids unique. */
  lemma UniqueAfterWrite<T>(rows: seq<T>, idOf: T -> string, i: nat, row: T)
    requires UniqueIds(rows, idOf) && i < |rows| && idOf(row) == idOf(rows[i])
    ensures UniqueIds(rows[i := row], idOf)
  {
  }

  /** Appending a row whose id is new keeps the ids unique. */
  lemma UniqueAfterAppend<T>(rows: seq<T>, idOf: T -> string, row: T)
    requires UniqueIds(rows, idOf) && idOf(row) !in Map(rows, idOf)
    ensures UniqueIds(rows + [row], idOf)
  {
    var after := rows + [row];
    forall i, j | 0 <= i < j < |after| ensures idOf(after[i]) != idOf(after[j]) {
      if j == |rows| { assert Map(rows, idOf)[i] == idOf(after[i]); }
    }
  }

  /** `delete().eq('id', id)`: every row with another id, in order. */
  function DeleteId<T(!new)>(rows: seq<T>, idOf: T -> string, id: string): (r: seq<T>)
    ensures |r| <= |rows|
    ensures forall x :: x in r <==> x in rows && idOf(x) != id
  {
    if rows == [] then []
    else
      var rest := DeleteId(rows[1..], idOf, id);
      assert forall x :: x in rows <==> x == rows[0] || x in rows[1..];
      if idOf(rows[0]) == id then rest else [rows[0]] + rest
  }

  lemma {:induction false} UniqueAfterDelete<T(!new)>(rows: seq<T>, idOf: T -> string, id: string)
    requires UniqueIds(rows, idOf)
    ensures UniqueIds(DeleteId(rows, idOf, id), idOf)
  {
    if rows != [] {
      var tail := rows[1..];
      UniqueAfterDelete(tail, idOf, id);
      var rest := DeleteId(tail, idOf, id);
      if idOf(rows[0]) != id {
        var r := [rows[0]] + rest;
        forall j | 0 < j < |r| ensures idOf(r[0]) != idOf(r[j]) {
          assert r[j] in tail;
          var k :| 0 <= k < |tail| && tail[k] == r[j];
          assert rows[k + 1] == r[j];
        }
        assert forall i, j :: 0 < i < j < |r| ==> r[i] == rest[i - 1] && r[j] == rest[j - 1];
      }
    }
  }

  /** A row written in place is found again under its id. */
  lemma FindAfterWrite<T>(rows: seq<T>, idOf: T -> string, i: nat, row: T)
    requires UniqueIds(rows, idOf) && i < |rows| && idOf(row) == idOf(rows[i])
    ensures UniqueIds(rows[i := row], idOf)
    ensures Find(rows[i := row], idOf, idOf(row)) == Some(row)
  {
    UniqueAfterWrite(rows, idOf, i, row);
    IndexOfUnique(rows[i := row], idOf, i);
  }

  /** An appended row with a new id is found again under its id. */
  lemma FindAfterAppend<T>(rows: seq<T>, idOf: T -> string, row: T)
    requires UniqueIds(rows, idOf) && idOf(row) !in Map(rows, idOf)
    ensures UniqueIds(rows + [row], idOf)
    ensures Find(rows + [row], idOf, idOf(row)) == Some(row)
  {
    UniqueAfterAppend(rows, idOf, row);
    IndexOfUnique(rows + [row], idOf, |rows|);
  }

  /** After a delete the id is gone and every other id finds what it found before. */
  lemma FindAfterDelete<T(!new)>(rows: seq<T>, idOf: T -> string, id: string, other: string)
    requires UniqueIds(rows, idOf)
    ensures UniqueIds(DeleteId(rows, idOf, id), idOf)
    ensures Find(DeleteId(rows, idOf, id), idOf, other) == if other == id then None else Find(rows, idOf, other)
  {
    var r := DeleteId(rows, idOf, id);
    UniqueAfterDelete(rows, idOf, id);
    if other != id {
      match Find(rows, idOf, other)
      case Some(x) =>
        assert x in r;
        var k :| 0 <= k < |r| && r[k] == x;
        IndexOfUnique(r, idOf, k);
      case None =>
        forall k | 0 <= k < |r| ensures idOf(r[k]) != other {
          assert r[k] in rows;
        }
    } else {
      forall k | 0 <= k < |r| ensures idOf(r[k]) != id {
        assert r[k] in r;
      }
    }
  }
}
