/** A database table as the model sees it: the rows in rowid order (the order SQLite
    returns them when a query has no ORDER BY), each row identified by a string primary
    key that `key` reads off it. */
module Tables {
  import opened Common

  /** The primary keys present in the table. */
  function Keys<T>(rows: seq<T>, key: T -> string): set<string> {
    set i | 0 <= i < |rows| :: key(rows[i])
  }

  /** The primary-key constraint: no two rows share a key. */
  predicate UniqueKeys<T>(rows: seq<T>, key: T -> string) {
    forall i, j :: 0 <= i < j < |rows| ==> key(rows[i]) != key(rows[j])
  }

  /** The position of the first row carrying key `id`, if any. */
  function IndexOf<T>(rows: seq<T>, key: T -> string, id: string): (r: Option<nat>)
    ensures r.Some? ==> r.value < |rows| && key(rows[r.value]) == id
    ensures r.Some? ==> forall j :: 0 <= j < r.value ==> key(rows[j]) != id
    ensures r.None? <==> id !in Keys(rows, key)
  {
    if rows == [] then None
    else if key(rows[0]) == id then Some(0)
    else match IndexOf(rows[1..], key, id)
      case None =>
        assert forall i :: 0 < i < |rows| ==> key(rows[i]) == key(rows[1..][i - 1]);
        None
      case Some(i) => Some(i + 1)
  }

  /** session.get(Model, id): the row with that primary key, if any. */
  function Find<T>(rows: seq<T>, key: T -> string, id: string): (r: Option<T>)
    ensures r.Some? <==> id in Keys(rows, key)
    ensures r.Some? ==> key(r.value) == id
    ensures r.Some? ==> exists i :: 0 <= i < |rows| && rows[i] == r.value
  {
    match IndexOf(rows, key, id)
    case None => None
    case Some(i) => Some(rows[i])
  }

  /** With unique keys, a key names exactly one position, so lookups find that row. */
  lemma FindUnique<T>(rows: seq<T>, key: T -> string, i: nat)
    requires UniqueKeys(rows, key)
    requires i < |rows|
    ensures IndexOf(rows, key, key(rows[i])) == Some(i)
    ensures Find(rows, key, key(rows[i])) == Some(rows[i])
  {
    var r := IndexOf(rows, key, key(rows[i]));
    assert key(rows[i]) in Keys(rows, key);
  }

  /** The rows that satisfy `keep`, in their original order (a WHERE clause). */
  function Filter<T(==,!new)>(rows: seq<T>, keep: T -> bool): (r: seq<T>)
    ensures |r| <= |rows|
    ensures forall x :: x in r <==> x in rows && keep(x)
  {
    if rows == [] then []
    else if keep(rows[0]) then [rows[0]] + Filter(rows[1..], keep)
    else Filter(rows[1..], keep)
  }

  /** A filtered table still satisfies the primary-key constraint. */
  lemma {:induction false} FilterUnique<T(!new)>(rows: seq<T>, key: T -> string, keep: T -> bool)
    requires UniqueKeys(rows, key)
    ensures UniqueKeys(Filter(rows, keep), key)
  {
    if rows != [] {
      var tail := rows[1..];
      assert UniqueKeys(tail, key) by {
        forall i, j | 0 <= i < j < |tail| ensures key(tail[i]) != key(tail[j]) {
          assert tail[i] == rows[i + 1] && tail[j] == rows[j + 1];
        }
      }
      FilterUnique(tail, key, keep);
      if keep(rows[0]) {
        var f := Filter(tail, keep);
        forall j | 0 <= j < |f| ensures key(rows[0]) != key(f[j]) {
          assert f[j] in tail;
          var k :| 0 <= k < |tail| && tail[k] == f[j];
          assert tail[k] == rows[k + 1];
        }
        assert forall j :: 0 < j < |[rows[0]] + f| ==> ([rows[0]] + f)[j] == f[j - 1];
      }
    }
  }

  /** The keys left after a filter are those of the rows it keeps. */
  lemma FilterKeys<T(!new)>(rows: seq<T>, key: T -> string, keep: T -> bool, id: string)
    ensures id in Keys(Filter(rows, keep), key)
            <==> exists i :: 0 <= i < |rows| && key(rows[i]) == id && keep(rows[i])
  {
    var f := Filter(rows, keep);
    if id in Keys(f, key) {
      var j :| 0 <= j < |f| && key(f[j]) == id;
      assert f[j] in rows;
    }
    if exists i :: 0 <= i < |rows| && key(rows[i]) == id && keep(rows[i]) {
      var i :| 0 <= i < |rows| && key(rows[i]) == id && keep(rows[i]);
      assert rows[i] in f;
      var j :| 0 <= j < |f| && f[j] == rows[i];
    }
  }

  /** DELETE ... WHERE id = :id. */
  function WithoutKey<T(==,!new)>(rows: seq<T>, key: T -> string, id: string): (r: seq<T>)
    ensures forall x :: x in r <==> x in rows && key(x) != id
  {
    Filter(rows, x => key(x) != id)
  }

  /** Deleting one key keeps the primary-key constraint, and exactly the other keys. */
  lemma WithoutKeyKeys<T(!new)>(rows: seq<T>, key: T -> string, id: string)
    requires UniqueKeys(rows, key)
    ensures UniqueKeys(WithoutKey(rows, key, id), key)
    ensures Keys(WithoutKey(rows, key, id), key) == Keys(rows, key) - {id}
  {
    FilterUnique(rows, key, x => key(x) != id);
    forall k ensures k in Keys(WithoutKey(rows, key, id), key) <==> k in Keys(rows, key) - {id} {
      FilterKeys(rows, key, x => key(x) != id, k);
    }
  }

  /** The keys after an INSERT. */
  lemma AppendKeys<T>(rows: seq<T>, key: T -> string, x: T)
    ensures Keys(rows + [x], key) == Keys(rows, key) + {key(x)}
  {
    var r := rows + [x];
    forall k | k in Keys(r, key) ensures k in Keys(rows, key) + {key(x)} {
      var i :| 0 <= i < |r| && key(r[i]) == k;
      if i < |rows| { assert key(rows[i]) == k; }
    }
    forall k | k in Keys(rows, key) ensures k in Keys(r, key) {
      var i :| 0 <= i < |rows| && key(rows[i]) == k;
      assert key(r[i]) == k;
    }
    assert key(r[|rows|]) == key(x);
  }

  /** INSERT of a row whose key is not present. */
  lemma AppendUnique<T>(rows: seq<T>, key: T -> string, x: T)
    requires UniqueKeys(rows, key)
    requires key(x) !in Keys(rows, key)
    ensures UniqueKeys(rows + [x], key)
  {
    var r := rows + [x];
    forall i, j | 0 <= i < j < |r| ensures key(r[i]) != key(r[j]) {
      if j == |rows| {
        assert key(r[i]) in Keys(rows, key);
      }
    }
  }

  /** UPDATE of one row in place, keeping its primary key. */
  lemma UpdateKeys<T>(rows: seq<T>, key: T -> string, i: nat, x: T)
    requires i < |rows| && key(x) == key(rows[i])
    ensures UniqueKeys(rows, key) ==> UniqueKeys(rows[i := x], key)
    ensures Keys(rows[i := x], key) == Keys(rows, key)
  {
    var r := rows[i := x];
    assert forall j :: 0 <= j < |rows| ==> key(r[j]) == key(rows[j]);
    forall k | k in Keys(rows, key) ensures k in Keys(r, key) {
      var j :| 0 <= j < |rows| && key(rows[j]) == k;
      assert key(r[j]) == k;
    }
  }
}
