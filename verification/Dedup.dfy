/** Deduplication after a stable sort by identifier, as both lists of the case synthesis use it
    (backend/app/case_intelligence/conflicts.py:98-107 and relationships.py:205-215). */
module Dedup {
  import opened Bags
  import opened Sorting
  import opened Text

  /** No earlier row has the identifier of `rows[i]`. */
  ghost predicate First<T>(rows: seq<T>, id: T -> string, i: int) {
    0 <= i < |rows| && forall j :: 0 <= j < i ==> id(rows[j]) != id(rows[i])
  }

  /** Of every identifier the first row, in strictly ascending order of identifiers. */
  ghost predicate IsUnique<T(!new)>(rows: seq<T>, id: T -> string, unique: seq<T>) {
    && (forall i, j :: 0 <= i < j < |unique| ==> Le(id(unique[i]), id(unique[j])) && id(unique[i]) != id(unique[j]))
    && (forall x :: x in unique <==> exists i :: First(rows, id, i) && rows[i] == x)
  }

  function IdLe<T>(id: T -> string): (T, T) -> bool { (x, y) => Le(id(x), id(y)) }

  function HasId<T>(id: T -> string, key: string): T -> bool { x => id(x) == key }

  lemma IdLeIsTotalPreorder<T(!new)>(id: T -> string)
    ensures TotalPreorder(IdLe(id))
  {
    forall x: T, y: T ensures IdLe(id)(x, y) || IdLe(id)(y, x) {
      LeTotal(id(x), id(y));
    }
    forall x: T, y: T, z: T | IdLe(id)(x, y) && IdLe(id)(y, z) ensures IdLe(id)(x, z) {
      LeTransitive(id(x), id(y), id(z));
    }
  }

  lemma {:induction false} InsertIsStable<T>(x: T, xs: seq<T>, id: T -> string, key: string)
    ensures Keep(Insert(x, xs, IdLe(id)), HasId(id, key)) == Keep([x] + xs, HasId(id, key))
  {
    var p := HasId(id, key);
    assert ([x] + xs)[1..] == xs;
    if xs != [] && !IdLe(id)(x, xs[0]) {
      LeReflexive(id(x));
      var rest := Insert(x, xs[1..], IdLe(id));
      InsertIsStable(x, xs[1..], id, key);
      assert ([xs[0]] + rest)[1..] == rest;
      assert ([x] + xs[1..])[1..] == xs[1..];
      assert !(p(x) && p(xs[0]));
    }
  }

  /** Rows with the same identifier keep their order. */
  lemma {:induction false} SortedIsStable<T>(rows: seq<T>, id: T -> string, key: string)
    ensures Keep(Sorted(rows, IdLe(id)), HasId(id, key)) == Keep(rows, HasId(id, key))
  {
    if rows != [] {
      var rest := Sorted(rows[1..], IdLe(id));
      SortedIsStable(rows[1..], id, key);
      InsertIsStable(rows[0], rest, id, key);
      assert ([rows[0]] + rest)[1..] == rest;
    }
  }

  lemma {:induction false} KeepHead<T>(rows: seq<T>, p: T -> bool, i: int)
    requires 0 <= i < |rows| && p(rows[i]) && forall j :: 0 <= j < i ==> !p(rows[j])
    ensures Keep(rows, p) != [] && Keep(rows, p)[0] == rows[i]
  {
    if i > 0 {
      assert !p(rows[0]);
      KeepHead(rows[1..], p, i - 1);
    }
  }

  lemma {:induction false} HeadKept<T>(rows: seq<T>, p: T -> bool) returns (i: int)
    requires Keep(rows, p) != []
    ensures 0 <= i < |rows| && p(rows[i]) && forall j :: 0 <= j < i ==> !p(rows[j])
    ensures Keep(rows, p)[0] == rows[i]
  {
    if p(rows[0]) {
      i := 0;
    } else {
      i := HeadKept(rows[1..], p);
      i := i + 1;
    }
  }

  lemma FirstIsHead<T>(rows: seq<T>, id: T -> string, x: T)
    ensures (exists i :: First(rows, id, i) && rows[i] == x) <==>
            (var kept := Keep(rows, HasId(id, id(x))); kept != [] && kept[0] == x)
  {
    var p := HasId(id, id(x));
    if i :| First(rows, id, i) && rows[i] == x {
      KeepHead(rows, p, i);
    }
    if Keep(rows, p) != [] && Keep(rows, p)[0] == x {
      var i := HeadKept(rows, p);
      assert First(rows, id, i);
    }
  }

  /** Sorting first does not change which row is the first of its identifier. */
  lemma SortedFirsts<T>(rows: seq<T>, id: T -> string, x: T)
    ensures (exists i :: First(Sorted(rows, IdLe(id)), id, i) && Sorted(rows, IdLe(id))[i] == x) <==>
            (exists i :: First(rows, id, i) && rows[i] == x)
  {
    FirstIsHead(rows, id, x);
    FirstIsHead(Sorted(rows, IdLe(id)), id, x);
    SortedIsStable(rows, id, id(x));
  }

  method Deduplicate<T(!new)>(rows: seq<T>, id: T -> string) returns (unique: seq<T>)
    ensures IsUnique(rows, id, unique)
  {
    var sorted := Sorted(rows, IdLe(id));
    IdLeIsTotalPreorder(id);
    SortedIsAscending(rows, IdLe(id));
    var seen: set<string> := {};
    unique := [];
    ghost var at: seq<int> := [];
    for n := 0 to |sorted|
      invariant seen == set i | 0 <= i < n :: id(sorted[i])
      invariant |at| == |unique|
      invariant forall k :: 0 <= k < |at| ==> 0 <= at[k] < n && First(sorted, id, at[k]) && unique[k] == sorted[at[k]]
      invariant forall k, l :: 0 <= k < l < |at| ==> at[k] < at[l]
      invariant forall i :: 0 <= i < n && First(sorted, id, i) ==> i in at
    {
      if id(sorted[n]) !in seen {
        assert First(sorted, id, n);
        seen := seen + {id(sorted[n])};
        unique := unique + [sorted[n]];
        at := at + [n];
      }
    }
    FirstsInOrder(sorted, id, unique, at);
    forall x ensures x in unique <==> exists i :: First(rows, id, i) && rows[i] == x {
      SortedFirsts(rows, id, x);
    }
  }

  lemma FirstsInOrder<T(!new)>(sorted: seq<T>, id: T -> string, unique: seq<T>, at: seq<int>)
    requires Ascending(sorted, IdLe(id)) && |at| == |unique|
    requires forall k :: 0 <= k < |at| ==> First(sorted, id, at[k]) && unique[k] == sorted[at[k]]
    requires forall k, l :: 0 <= k < l < |at| ==> at[k] < at[l]
    requires forall i :: First(sorted, id, i) ==> i in at
    ensures IsUnique(sorted, id, unique)
  {
    forall i, j | 0 <= i < j < |unique| ensures Le(id(unique[i]), id(unique[j])) && id(unique[i]) != id(unique[j]) {
      assert IdLe(id)(sorted[at[i]], sorted[at[j]]);
      assert First(sorted, id, at[j]);
    }
    forall i | First(sorted, id, i) ensures sorted[i] in unique {
      var k :| 0 <= k < |at| && at[k] == i;
      assert unique[k] == sorted[i];
    }
    forall x | x in unique ensures exists i :: First(sorted, id, i) && sorted[i] == x {
      var k :| 0 <= k < |unique| && unique[k] == x;
      assert First(sorted, id, at[k]);
    }
  }

  /** The identifiers in use. */
  function Ids<T>(rows: seq<T>, id: T -> string): set<string> {
    set i | 0 <= i < |rows| :: id(rows[i])
  }

  /** One row per identifier is left. */
  lemma UniqueSize<T(!new)>(rows: seq<T>, id: T -> string, unique: seq<T>)
    requires IsUnique(rows, id, unique)
    ensures Ids(unique, id) == Ids(rows, id) && |unique| == |Ids(rows, id)|
  {
    forall key | key in Ids(rows, id) ensures key in Ids(unique, id) {
      var i := FirstWith(rows, id, key);
      assert rows[i] in unique;
    }
    forall key | key in Ids(unique, id) ensures key in Ids(rows, id) {
      var k :| 0 <= k < |unique| && id(unique[k]) == key;
      assert unique[k] in unique;
    }
    DistinctSize(unique, id);
  }

  lemma {:induction false} FirstWith<T>(rows: seq<T>, id: T -> string, key: string) returns (i: int)
    requires key in Ids(rows, id)
    ensures First(rows, id, i) && id(rows[i]) == key
  {
    var j :| 0 <= j < |rows| && id(rows[j]) == key;
    KeepMembers(rows, HasId(id, key));
    assert rows[j] in Keep(rows, HasId(id, key));
    i := HeadKept(rows, HasId(id, key));
  }

  lemma {:induction false} DistinctSize<T>(rows: seq<T>, id: T -> string)
    requires forall i, j :: 0 <= i < j < |rows| ==> id(rows[i]) != id(rows[j])
    ensures |Ids(rows, id)| == |rows|
  {
    if rows == [] {
      assert Ids(rows, id) == {};
    } else {
      var n := |rows| - 1;
      DistinctSize(rows[..n], id);
      forall key ensures key in Ids(rows, id) <==> key in Ids(rows[..n], id) || key == id(rows[n]) {
        if key in Ids(rows[..n], id) {
          var i :| 0 <= i < n && id(rows[..n][i]) == key;
          assert id(rows[i]) == key;
        }
        if key in Ids(rows, id) && key != id(rows[n]) {
          var i :| 0 <= i < |rows| && id(rows[i]) == key;
          assert id(rows[..n][i]) == key;
        }
      }
      assert Ids(rows, id) == Ids(rows[..n], id) + {id(rows[n])};
      assert id(rows[n]) !in Ids(rows[..n], id);
    }
  }
}
