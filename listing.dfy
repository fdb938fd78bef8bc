/** Which identities the admin browser shows: the entries of the data directory sorted by
    name (Python's `sorted` over paths of one directory compares their names code point by
    code point), keeping the directories that hold a box.db file. */
module Listing {

  /** One entry of the data directory as the browser sees it. */
  datatype DirEntry = DirEntry(name: string, isDir: bool, hasBoxDb: bool)

  /** Lexicographic order on code points, the order of Python's string comparison. */
  predicate StrLe(a: string, b: string) {
    a == [] || (b != [] && (a[0] < b[0] || (a[0] == b[0] && StrLe(a[1..], b[1..]))))
  }

  lemma {:induction false} StrLeTotal(a: string, b: string)
    ensures StrLe(a, b) || StrLe(b, a)
  {
    if a != [] && b != [] && a[0] == b[0] {
      StrLeTotal(a[1..], b[1..]);
    }
  }

  lemma {:induction false} StrLeTrans(a: string, b: string, c: string)
    requires StrLe(a, b) && StrLe(b, c)
    ensures StrLe(a, c)
  {
    if a != [] && b != [] && c != [] && a[0] == b[0] && b[0] == c[0] {
      StrLeTrans(a[1..], b[1..], c[1..]);
    }
  }

  predicate Sorted(s: seq<DirEntry>) {
    forall i, j :: 0 <= i < j < |s| ==> StrLe(s[i].name, s[j].name)
  }

  /** Places `e` in front of the first entry whose name is not smaller. */
  function Insert(e: DirEntry, s: seq<DirEntry>): (r: seq<DirEntry>)
    ensures multiset(r) == multiset(s) + multiset{e}
  {
    if s == [] then [e]
    else if StrLe(e.name, s[0].name) then [e] + s
    else
      assert s == [s[0]] + s[1..];
      [s[0]] + Insert(e, s[1..])
  }

  /** `sorted(entries)`, by name. */
  function SortByName(entries: seq<DirEntry>): (r: seq<DirEntry>)
    ensures multiset(r) == multiset(entries)
  {
    if entries == [] then []
    else
      assert entries == [entries[0]] + entries[1..];
      Insert(entries[0], SortByName(entries[1..]))
  }

  /** An entry no greater than any of a sorted listing can go in front of it. */
  lemma ConsSorted(x: DirEntry, rest: seq<DirEntry>)
    requires Sorted(rest)
    requires forall k :: 0 <= k < |rest| ==> StrLe(x.name, rest[k].name)
    ensures Sorted([x] + rest)
  {
    var r := [x] + rest;
    forall i, j | 0 <= i < j < |r| ensures StrLe(r[i].name, r[j].name) {
      if i == 0 {
        assert r[j] == rest[j - 1];
      } else {
        assert r[i] == rest[i - 1] && r[j] == rest[j - 1];
      }
    }
  }

  /** An entry whose name none of a listing has can go in front of it. */
  lemma ConsDistinct(x: DirEntry, rest: seq<DirEntry>)
    requires DistinctNames(rest)
    requires forall k :: 0 <= k < |rest| ==> x.name != rest[k].name
    ensures DistinctNames([x] + rest)
  {
    var r := [x] + rest;
    forall i, j | 0 <= i < j < |r| ensures r[i].name != r[j].name {
      if i == 0 {
        assert r[j] == rest[j - 1];
      } else {
        assert r[i] == rest[i - 1] && r[j] == rest[j - 1];
      }
    }
  }

  /** An entry of `Insert(e, s[1..])` is `e` or an entry of `s` after its head. */
  lemma InsertedFrom(e: DirEntry, s: seq<DirEntry>, x: DirEntry)
    requires s != [] && x in Insert(e, s[1..])
    ensures x == e || exists m :: 1 <= m < |s| && s[m] == x
  {
    assert x in multiset(Insert(e, s[1..]));
    if x != e {
      assert x in multiset(s[1..]);
      var m :| 0 <= m < |s[1..]| && s[1..][m] == x;
      assert s[m + 1] == x;
    }
  }

  lemma {:induction false} InsertSorted(e: DirEntry, s: seq<DirEntry>)
    requires Sorted(s)
    ensures Sorted(Insert(e, s))
  {
    if s == [] {
    } else if StrLe(e.name, s[0].name) {
      forall k | 0 <= k < |s| ensures StrLe(e.name, s[k].name) {
        if k > 0 {
          StrLeTrans(e.name, s[0].name, s[k].name);
        }
      }
      ConsSorted(e, s);
    } else {
      var tail := s[1..];
      assert Sorted(tail);
      InsertSorted(e, tail);
      var rest := Insert(e, tail);
      StrLeTotal(e.name, s[0].name);
      forall k | 0 <= k < |rest| ensures StrLe(s[0].name, rest[k].name) {
        InsertedFrom(e, s, rest[k]);
      }
      ConsSorted(s[0], rest);
    }
  }

  lemma {:induction false} SortByNameSorted(entries: seq<DirEntry>)
    ensures Sorted(SortByName(entries))
  {
    if entries != [] {
      SortByNameSorted(entries[1..]);
      InsertSorted(entries[0], SortByName(entries[1..]));
    }
  }

  /** An identity directory: a directory holding a box.db file. */
  predicate IsIdentity(e: DirEntry) {
    e.isDir && e.hasBoxDb
  }

  /** The names of the identity directories among `s`, in order. */
  function Selected(s: seq<DirEntry>): (r: seq<string>)
    ensures |r| <= |s|
    ensures forall n :: n in r <==> exists e :: e in s && IsIdentity(e) && e.name == n
  {
    if s == [] then []
    else if IsIdentity(s[0]) then [s[0].name] + Selected(s[1..])
    else Selected(s[1..])
  }

  /** The identities /_browse shows, in the order it shows them; none when the data
      directory does not exist. */
  function BrowseSelection(dataDirExists: bool, listing: seq<DirEntry>): seq<string> {
    if dataDirExists then Selected(SortByName(listing)) else []
  }

  /** Names in code-point order. */
  predicate SortedNames(r: seq<string>) {
    forall i, j :: 0 <= i < j < |r| ==> StrLe(r[i], r[j])
  }

  /** A name of the selection from `s[1..]` is the name of an entry after the head. */
  lemma SelectedFromTail(s: seq<DirEntry>, x: string)
    requires s != [] && x in Selected(s[1..])
    ensures exists m :: 1 <= m < |s| && s[m].name == x
  {
    var e :| e in s[1..] && IsIdentity(e) && e.name == x;
    var m :| 0 <= m < |s[1..]| && s[1..][m] == e;
    assert s[m + 1] == e;
  }

  /** The selection keeps the order of a sorted listing. */
  lemma {:induction false} SelectedSorted(s: seq<DirEntry>)
    requires Sorted(s)
    ensures SortedNames(Selected(s))
  {
    if s != [] {
      var tail := s[1..];
      assert Sorted(tail);
      SelectedSorted(tail);
      if IsIdentity(s[0]) {
        var rest := Selected(tail);
        forall k | 0 <= k < |rest| ensures StrLe(s[0].name, rest[k]) {
          SelectedFromTail(s, rest[k]);
        }
        var r := [s[0].name] + rest;
        forall i, j | 0 <= i < j < |r| ensures StrLe(r[i], r[j]) {
          assert r[j] == rest[j - 1];
          if i > 0 {
            assert r[i] == rest[i - 1];
          }
        }
      }
    }
  }

  /** Pairwise distinct names, as the entries of one directory have. */
  predicate DistinctNames(s: seq<DirEntry>) {
    forall i, j :: 0 <= i < j < |s| ==> s[i].name != s[j].name
  }

  predicate Distinct(s: seq<string>) {
    forall i, j :: 0 <= i < j < |s| ==> s[i] != s[j]
  }

  /** A listing without a name twice gives a selection without a name twice. */
  lemma {:induction false} SelectedDistinct(s: seq<DirEntry>)
    requires DistinctNames(s)
    ensures Distinct(Selected(s))
  {
    if s != [] {
      var tail := s[1..];
      assert DistinctNames(tail);
      SelectedDistinct(tail);
      if IsIdentity(s[0]) {
        var rest := Selected(tail);
        forall k | 0 <= k < |rest| ensures s[0].name != rest[k] {
          SelectedFromTail(s, rest[k]);
        }
        var r := [s[0].name] + rest;
        forall i, j | 0 <= i < j < |r| ensures r[i] != r[j] {
          assert r[j] == rest[j - 1];
          if i > 0 {
            assert r[i] == rest[i - 1];
          }
        }
      }
    }
  }

  /** Inserting an entry whose name is new keeps the names distinct. */
  lemma {:induction false} InsertDistinct(e: DirEntry, s: seq<DirEntry>)
    requires DistinctNames(s)
    requires forall x :: x in s ==> x.name != e.name
    ensures DistinctNames(Insert(e, s))
  {
    if s != [] && !StrLe(e.name, s[0].name) {
      var tail := s[1..];
      assert DistinctNames(tail);
      InsertDistinct(e, tail);
      var rest := Insert(e, tail);
      forall k | 0 <= k < |rest| ensures s[0].name != rest[k].name {
        InsertedFrom(e, s, rest[k]);
      }
      ConsDistinct(s[0], rest);
    } else if s != [] {
      ConsDistinct(e, s);
    }
  }

  /** Sorting keeps the names distinct. */
  lemma {:induction false} SortKeepsDistinct(entries: seq<DirEntry>)
    requires DistinctNames(entries)
    ensures DistinctNames(SortByName(entries))
  {
    if entries != [] {
      var tail := entries[1..];
      assert DistinctNames(tail);
      SortKeepsDistinct(tail);
      var sorted := SortByName(tail);
      forall x | x in sorted ensures x.name != entries[0].name {
        assert x in multiset(sorted);
        assert x in multiset(tail);
        var m :| 0 <= m < |tail| && tail[m] == x;
        assert tail[m] == entries[m + 1];
      }
      InsertDistinct(entries[0], sorted);
    }
  }

  /** /_browse shows no name twice. */
  lemma BrowseSelectionDistinct(dataDirExists: bool, listing: seq<DirEntry>)
    requires DistinctNames(listing)
    ensures Distinct(BrowseSelection(dataDirExists, listing))
  {
    if dataDirExists {
      SortKeepsDistinct(listing);
      SelectedDistinct(SortByName(listing));
    }
  }

  /** What /_browse selects: exactly the identity directories, each once, in name order. */
  lemma BrowseSelectionSpec(dataDirExists: bool, listing: seq<DirEntry>)
    requires DistinctNames(listing)
    ensures var names := BrowseSelection(dataDirExists, listing);
            && (forall n :: n in names <==> dataDirExists && exists e :: e in listing && IsIdentity(e) && e.name == n)
            && SortedNames(names)
            && Distinct(names)
  {
    if dataDirExists {
      var sorted := SortByName(listing);
      SortByNameSorted(listing);
      SelectedSorted(sorted);
      BrowseSelectionDistinct(dataDirExists, listing);
      forall n ensures n in Selected(sorted)
                       <==> (exists e :: e in listing && IsIdentity(e) && e.name == n)
      {
        if exists e :: e in sorted && IsIdentity(e) && e.name == n {
          var e :| e in sorted && IsIdentity(e) && e.name == n;
          assert e in multiset(sorted);
        }
        if exists e :: e in listing && IsIdentity(e) && e.name == n {
          var e :| e in listing && IsIdentity(e) && e.name == n;
          assert e in multiset(listing);
        }
      }
    }
  }
}
