/** A database table is modelled as the sequence of its rows; each row
    carries its own key columns, read through a key function. This module
    holds the lookups, filters and deletions every service uses. */
module Tables {
  import opened Common

  /** No two rows share a key (a primary key or a unique column). */
  ghost predicate UniqueKeys<T>(rows: seq<T>, key: T -> int) {
    forall i, j :: 0 <= i < |rows| && 0 <= j < |rows| && key(rows[i]) == key(rows[j]) ==> i == j
  }

  /** Every key is below the next value the auto-increment will hand out. */
  ghost predicate KeysBelow<T>(rows: seq<T>, key: T -> int, next: int) {
    forall i :: 0 <= i < |rows| ==> key(rows[i]) < next
  }

  /** `findUnique({ where: { key: k } })`: the position of the first row with
      key `k`, or None when there is none. */
  function FindIndex<T>(rows: seq<T>, key: T -> int, k: int): (r: Option<nat>)
    ensures r.Some? ==> r.value < |rows| && key(rows[r.value]) == k
    ensures r.Some? ==> forall j :: 0 <= j < r.value ==> key(rows[j]) != k
    ensures r.None? <==> forall j :: 0 <= j < |rows| ==> key(rows[j]) != k
  {
    if |rows| == 0 then None
    else if key(rows[0]) == k then Some(0)
    else
      match FindIndex(rows[1..], key, k)
      case None => None
      case Some(j) => Some(j + 1)
  }

  /** With unique keys, the row found is the only row carrying that key. */
  lemma FindIndexUnique<T>(rows: seq<T>, key: T -> int, k: int, i: nat)
    requires UniqueKeys(rows, key)
    requires i < |rows| && key(rows[i]) == k
    ensures FindIndex(rows, key, k) == Some(i)
  {
  }

  /** The row `findUnique` returns, or None. */
  function Lookup<T>(rows: seq<T>, key: T -> int, k: int): (r: Option<T>)
    ensures r.Some? ==> r.value in rows && key(r.value) == k
    ensures r.None? <==> forall j :: 0 <= j < |rows| ==> key(rows[j]) != k
  {
    match FindIndex(rows, key, k)
    case Some(i) => Some(rows[i])
    case None => None
  }

  /** With unique keys, a row of the table is what looking up its key gives. */
  lemma LookupUnique<T>(rows: seq<T>, key: T -> int, i: nat)
    requires UniqueKeys(rows, key) && i < |rows|
    ensures Lookup(rows, key, key(rows[i])) == Some(rows[i])
  {
    FindIndexUnique(rows, key, key(rows[i]), i);
  }

  /** `findMany({ where })`: the rows satisfying `p`, in table order. */
  function Filter<T>(rows: seq<T>, p: T -> bool): (r: seq<T>)
    ensures |r| <= |rows|
    ensures forall i :: 0 <= i < |r| ==> r[i] in rows && p(r[i])
    ensures forall i :: 0 <= i < |rows| && p(rows[i]) ==> rows[i] in r
  {
    if |rows| == 0 then []
    else (if p(rows[0]) then [rows[0]] else []) + Filter(rows[1..], p)
  }

  /** Filtering distributes over the concatenation of two tables. */
  lemma {:induction false} FilterAppend<T>(a: seq<T>, b: seq<T>, p: T -> bool)
    ensures Filter(a + b, p) == Filter(a, p) + Filter(b, p)
  {
    if |a| == 0 {
      assert a + b == b;
    } else {
      assert (a + b)[1..] == a[1..] + b;
      FilterAppend(a[1..], b, p);
    }
  }

  /** Filtering keeps every row satisfying `p` as often as the table holds
      it and drops every other row, so the length of a `findMany` result
      is the number of matching rows. */
  lemma {:induction false} FilterMultiset<T>(rows: seq<T>, p: T -> bool, x: T)
    ensures multiset(Filter(rows, p))[x] == if p(x) then multiset(rows)[x] else 0
  {
    if |rows| > 0 {
      FilterMultiset(rows[1..], p, x);
      assert rows == [rows[0]] + rows[1..];
    }
  }

  /** The rows after the first keep their keys unique. */
  lemma UniqueTail<T>(rows: seq<T>, key: T -> int)
    requires UniqueKeys(rows, key) && |rows| > 0
    ensures UniqueKeys(rows[1..], key)
    ensures forall j :: 0 <= j < |rows| - 1 ==> key(rows[1..][j]) != key(rows[0])
  {
    var rest := rows[1..];
    forall i, j | 0 <= i < |rest| && 0 <= j < |rest| && key(rest[i]) == key(rest[j]) ensures i == j {
      assert rest[i] == rows[i + 1] && rest[j] == rows[j + 1];
    }
    forall j | 0 <= j < |rest| ensures key(rest[j]) != key(rows[0]) {
      assert rest[j] == rows[j + 1];
    }
  }

  /** A query on a table with unique keys returns rows with unique keys. */
  lemma {:induction false} FilterUnique<T>(rows: seq<T>, key: T -> int, p: T -> bool)
    requires UniqueKeys(rows, key)
    ensures UniqueKeys(Filter(rows, p), key)
  {
    if |rows| > 0 {
      var rest := rows[1..];
      UniqueTail(rows, key);
      FilterUnique(rest, key, p);
      var fr := Filter(rest, p);
      forall k | 0 <= k < |fr| ensures key(fr[k]) != key(rows[0]) {
        var j :| 0 <= j < |rest| && rest[j] == fr[k];
      }
    }
  }

  /** The keys a table holds. */
  ghost function Keys<T>(rows: seq<T>, key: T -> int): set<int> {
    set x | x in rows :: key(x)
  }

  /** With unique keys, a table holds as many distinct keys as rows. */
  lemma {:induction false} UniqueKeyCount<T>(rows: seq<T>, key: T -> int)
    requires UniqueKeys(rows, key)
    ensures |Keys(rows, key)| == |rows|
  {
    if |rows| > 0 {
      var rest := rows[1..];
      UniqueTail(rows, key);
      UniqueKeyCount(rest, key);
      var keys := Keys(rows, key);
      var restKeys := Keys(rest, key);
      assert keys == {key(rows[0])} + restKeys;
      assert key(rows[0]) !in restKeys by {
        forall x | x in rest ensures key(x) != key(rows[0]) {
          var j :| 0 <= j < |rest| && rest[j] == x;
        }
      }
    }
  }

  /** The table without the row at position `i` (a `delete` by key). */
  function RemoveAt<T>(rows: seq<T>, i: nat): (r: seq<T>)
    requires i < |rows|
    ensures |r| == |rows| - 1
    ensures forall j :: 0 <= j < i ==> r[j] == rows[j]
    ensures forall j :: i <= j < |r| ==> r[j] == rows[j + 1]
  {
    rows[..i] + rows[i + 1..]
  }

  lemma UniqueAfterUpdate<T>(rows: seq<T>, key: T -> int, i: nat, x: T)
    requires UniqueKeys(rows, key) && i < |rows| && key(x) == key(rows[i])
    ensures UniqueKeys(rows[i := x], key)
  {
    var r := rows[i := x];
    forall a, b | 0 <= a < |r| && 0 <= b < |r| && key(r[a]) == key(r[b])
      ensures a == b
    {
      assert key(r[a]) == key(rows[a]) && key(r[b]) == key(rows[b]);
    }
  }

  lemma BelowAfterUpdate<T>(rows: seq<T>, key: T -> int, next: int, i: nat, x: T)
    requires KeysBelow(rows, key, next) && i < |rows| && key(x) == key(rows[i])
    ensures KeysBelow(rows[i := x], key, next)
  {
  }

  /** Appending a row keyed by the next counter value keeps keys unique and
      below the advanced counter. */
  lemma UniqueAfterAppend<T>(rows: seq<T>, key: T -> int, next: int, x: T)
    requires UniqueKeys(rows, key) && KeysBelow(rows, key, next) && key(x) == next
    ensures UniqueKeys(rows + [x], key) && KeysBelow(rows + [x], key, next + 1)
  {
    var r := rows + [x];
    forall a, b | 0 <= a < |r| && 0 <= b < |r| && key(r[a]) == key(r[b])
      ensures a == b
    {
      if a < |rows| { assert r[a] == rows[a]; }
      if b < |rows| { assert r[b] == rows[b]; }
    }
    forall a | 0 <= a < |r| ensures key(r[a]) < next + 1 {
      if a < |rows| { assert r[a] == rows[a]; }
    }
  }

  lemma UniqueAfterRemove<T>(rows: seq<T>, key: T -> int, i: nat)
    requires UniqueKeys(rows, key) && i < |rows|
    ensures UniqueKeys(RemoveAt(rows, i), key)
  {
    var r := RemoveAt(rows, i);
    forall a, b | 0 <= a < |r| && 0 <= b < |r| && key(r[a]) == key(r[b])
      ensures a == b
    {
      var a' := if a < i then a else a + 1;
      var b' := if b < i then b else b + 1;
      assert r[a] == rows[a'] && r[b] == rows[b'];
    }
  }

  lemma BelowAfterRemove<T>(rows: seq<T>, key: T -> int, next: int, i: nat)
    requires KeysBelow(rows, key, next) && i < |rows|
    ensures KeysBelow(RemoveAt(rows, i), key, next)
  {
    var r := RemoveAt(rows, i);
    forall a | 0 <= a < |r| ensures key(r[a]) < next {
      assert r[a] == rows[if a < i then a else a + 1];
    }
  }

  /** With unique keys, deleting the row at `i` removes exactly that row:
      every other row stays and no remaining row carries its key. */
  lemma RemoveAtExactly<T>(rows: seq<T>, key: T -> int, i: nat)
    requires UniqueKeys(rows, key) && i < |rows|
    ensures forall j :: 0 <= j < |rows| ==> (rows[j] in RemoveAt(rows, i) <==> j != i)
    ensures forall j :: 0 <= j < |RemoveAt(rows, i)| ==> key(RemoveAt(rows, i)[j]) != key(rows[i])
  {
    var r := RemoveAt(rows, i);
    forall j | 0 <= j < |r| ensures key(r[j]) != key(rows[i]) {
      assert r[j] == rows[if j < i then j else j + 1];
    }
    forall j | 0 <= j < |rows| ensures rows[j] in r <==> j != i {
      if j < i { assert r[j] == rows[j]; }
      else if j > i { assert r[j - 1] == rows[j]; }
    }
  }

  /** No value occurs twice in `s`. */
  predicate Distinct(s: seq<int>) {
    forall i, j :: 0 <= i < j < |s| ==> s[i] != s[j]
  }

  /** A sequence has at least as many elements as it has distinct values,
      and exactly as many when no value repeats. */
  lemma {:induction false} DistinctCard(s: seq<int>)
    ensures |set x | x in s| <= |s|
    ensures |set x | x in s| == |s| <==> Distinct(s)
  {
    if |s| > 0 {
      DistinctCard(s[1..]);
      var rest := set x | x in s[1..];
      assert (set x | x in s) == {s[0]} + rest;
      if s[0] in rest {
        assert (set x | x in s) == rest;
        var j :| 0 <= j < |s[1..]| && s[1..][j] == s[0];
        assert s[0] == s[j + 1];
      } else {
        assert |{s[0]} + rest| == 1 + |rest|;
        if Distinct(s) {
          assert Distinct(s[1..]) by {
            forall i, j | 0 <= i < j < |s[1..]| ensures s[1..][i] != s[1..][j] {
              assert s[1..][i] == s[i + 1] && s[1..][j] == s[j + 1];
            }
          }
        }
        if Distinct(s[1..]) {
          forall i, j | 0 <= i < j < |s| ensures s[i] != s[j] {
            if i == 0 { assert s[j] == s[1..][j - 1]; }
            else { assert s[i] == s[1..][i - 1] && s[j] == s[1..][j - 1]; }
          }
        }
      }
    }
  }

  /** A subset is no larger, and a subset as large as its superset is it. */
  lemma SubsetCard(a: set<int>, b: set<int>)
    requires a <= b
    ensures |a| <= |b|
    ensures |a| == |b| ==> a == b
  {
    assert b == a + (b - a);
    assert a * (b - a) == {};
    if |a| == |b| {
      assert |b - a| == 0;
    }
  }
}
