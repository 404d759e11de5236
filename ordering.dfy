/** The list operations the column and group resolvers apply to a board's
    `columns` and `groups`: `indexOf`/`findIndex`, `splice(i, 1)`, the
    validation filter of a reorder request, and `sort` with the comparator
    `indexOf(a.id) - indexOf(b.id)`.

    `Array.prototype.sort` is stable (section 23.1.3.30 of ECMA-262, 2023
    edition), so the reorder sorts by rank, where the rank of an element is the
    position of its id in the request, or -1 when the request leaves it out,
    and elements of equal rank keep their relative order. `SortByRank` is
    one such sort; `StableSortDeterminesReorder` shows that every stable sort
    by this comparator gives the same list. */
module Ordering {
  import opened BoardModel

  /** `Array.prototype.indexOf`: the first position of `x` in `s`, or -1. */
  function IndexOf(s: seq<Id>, x: Id): (r: int)
    ensures -1 <= r < |s|
    ensures r == -1 <==> x !in s
    ensures 0 <= r ==> s[r] == x && forall j :: 0 <= j < r ==> s[j] != x
  {
    if |s| == 0 then -1
    else if s[0] == x then 0
    else
      var k := IndexOf(s[1..], x);
      assert s == [s[0]] + s[1..];
      if k == -1 then -1 else k + 1
  }

  /** `Array.prototype.findIndex` with the test `e.id === id`. */
  function FindIndex<T>(s: seq<T>, key: T -> Id, id: Id): (r: int)
    ensures -1 <= r < |s|
    ensures r == -1 <==> forall i :: 0 <= i < |s| ==> key(s[i]) != id
    ensures 0 <= r ==> key(s[r]) == id && forall i :: 0 <= i < r ==> key(s[i]) != id
  {
    if |s| == 0 then -1
    else if key(s[0]) == id then 0
    else
      var k := FindIndex(s[1..], key, id);
      if k == -1 then -1 else k + 1
  }

  /** `s.map(e => e.id)`. */
  function Ids<T>(s: seq<T>, key: T -> Id): (r: seq<Id>)
    ensures |r| == |s|
    ensures forall i :: 0 <= i < |s| ==> r[i] == key(s[i])
  {
    seq(|s|, i requires 0 <= i < |s| => key(s[i]))
  }

  /** `requested.filter(id => !existing.includes(id))`: the ids of a reorder
      request that name no existing element. */
  function InvalidIds(requested: seq<Id>, existing: seq<Id>): (r: seq<Id>)
    ensures forall x :: x in r <==> x in requested && x !in existing
    ensures |r| == 0 <==> forall i :: 0 <= i < |requested| ==> requested[i] in existing
  {
    if |requested| == 0 then []
    else
      assert requested == [requested[0]] + requested[1..];
      var rest := InvalidIds(requested[1..], existing);
      if requested[0] in existing then rest else [requested[0]] + rest
  }

  /** `s.splice(i, 1)`: the list without its element at `i`. */
  function RemoveAt<T>(s: seq<T>, i: int): (r: seq<T>)
    requires 0 <= i < |s|
    ensures |r| == |s| - 1
    ensures r[..i] == s[..i] && r[i..] == s[i + 1..]
    ensures multiset(r) + multiset{s[i]} == multiset(s)
  {
    assert s == s[..i] + [s[i]] + s[i + 1..];
    s[..i] + s[i + 1..]
  }

  /** What the reorder comparator compares: the position of the element's id
      in the request, -1 for an id the request leaves out. */
  function Rank<T>(x: T, key: T -> Id, order: seq<Id>): int
  {
    IndexOf(order, key(x))
  }

  /** The comparator never reports a pair out of order. */
  ghost predicate SortedByRank<T>(s: seq<T>, key: T -> Id, order: seq<Id>)
  {
    forall i, j :: 0 <= i < j < |s| ==> Rank(s[i], key, order) <= Rank(s[j], key, order)
  }

  /** No element ranks below `lo`. */
  ghost predicate RanksAtLeast<T>(s: seq<T>, key: T -> Id, order: seq<Id>, lo: int)
  {
    forall j :: 0 <= j < |s| ==> lo <= Rank(s[j], key, order)
  }

  /** The elements of rank `k`, in the order in which `s` holds them. */
  function WithRank<T>(s: seq<T>, key: T -> Id, order: seq<Id>, k: int): seq<T>
  {
    if |s| == 0 then []
    else (if Rank(s[0], key, order) == k then [s[0]] else []) + WithRank(s[1..], key, order, k)
  }

  /** Places `x` before the first element whose rank is not below its own. */
  function Insert<T>(x: T, s: seq<T>, key: T -> Id, order: seq<Id>): seq<T>
  {
    if |s| == 0 || Rank(x, key, order) <= Rank(s[0], key, order) then [x] + s
    else [s[0]] + Insert(x, s[1..], key, order)
  }

  /** A stable insertion sort by rank: what `sort` with the reorder comparator yields. */
  function SortByRank<T>(s: seq<T>, key: T -> Id, order: seq<Id>): seq<T>
  {
    if |s| == 0 then [] else Insert(s[0], SortByRank(s[1..], key, order), key, order)
  }

  lemma {:induction false} InsertPermutes<T>(x: T, s: seq<T>, key: T -> Id, order: seq<Id>)
    ensures multiset(Insert(x, s, key, order)) == multiset{x} + multiset(s)
  {
    if |s| != 0 && Rank(x, key, order) > Rank(s[0], key, order) {
      InsertPermutes(x, s[1..], key, order);
      assert s == [s[0]] + s[1..];
    }
  }

  lemma SortedCons<T>(a: T, t: seq<T>, key: T -> Id, order: seq<Id>)
    requires SortedByRank(t, key, order)
    requires RanksAtLeast(t, key, order, Rank(a, key, order))
    ensures SortedByRank([a] + t, key, order)
  {
    var r := [a] + t;
    forall i, j | 0 <= i < j < |r|
      ensures Rank(r[i], key, order) <= Rank(r[j], key, order)
    {
      assert r[j] == t[j - 1];
      if i > 0 {
        assert r[i] == t[i - 1];
      }
    }
  }

  lemma {:induction false} InsertBounded<T>(x: T, s: seq<T>, key: T -> Id, order: seq<Id>, lo: int)
    requires lo <= Rank(x, key, order)
    requires RanksAtLeast(s, key, order, lo)
    ensures RanksAtLeast(Insert(x, s, key, order), key, order, lo)
  {
    var r := Insert(x, s, key, order);
    if |s| == 0 || Rank(x, key, order) <= Rank(s[0], key, order) {
      forall j | 0 < j < |r|
        ensures lo <= Rank(r[j], key, order)
      {
        assert r[j] == s[j - 1];
      }
    } else {
      forall j | 0 <= j < |s[1..]|
        ensures lo <= Rank(s[1..][j], key, order)
      {
        assert s[1..][j] == s[j + 1];
      }
      InsertBounded(x, s[1..], key, order, lo);
      var t := Insert(x, s[1..], key, order);
      assert r == [s[0]] + t;
      forall j | 0 < j < |r|
        ensures lo <= Rank(r[j], key, order)
      {
        assert r[j] == t[j - 1];
      }
    }
  }

  lemma {:induction false} InsertSorted<T>(x: T, s: seq<T>, key: T -> Id, order: seq<Id>)
    requires SortedByRank(s, key, order)
    ensures SortedByRank(Insert(x, s, key, order), key, order)
  {
    if |s| == 0 || Rank(x, key, order) <= Rank(s[0], key, order) {
      SortedCons(x, s, key, order);
    } else {
      forall i, j | 0 <= i < j < |s[1..]|
        ensures Rank(s[1..][i], key, order) <= Rank(s[1..][j], key, order)
      {
        assert s[1..][i] == s[i + 1] && s[1..][j] == s[j + 1];
      }
      forall j | 0 <= j < |s[1..]|
        ensures Rank(s[0], key, order) <= Rank(s[1..][j], key, order)
      {
        assert s[1..][j] == s[j + 1];
      }
      InsertSorted(x, s[1..], key, order);
      InsertBounded(x, s[1..], key, order, Rank(s[0], key, order));
      SortedCons(s[0], Insert(x, s[1..], key, order), key, order);
    }
  }

  lemma {:induction false} SortPermutes<T>(s: seq<T>, key: T -> Id, order: seq<Id>)
    ensures multiset(SortByRank(s, key, order)) == multiset(s)
    ensures |SortByRank(s, key, order)| == |s|
  {
    if |s| != 0 {
      SortPermutes(s[1..], key, order);
      InsertPermutes(s[0], SortByRank(s[1..], key, order), key, order);
      assert s == [s[0]] + s[1..];
      assert |multiset(SortByRank(s, key, order))| == |multiset(s)|;
    }
  }

  lemma {:induction false} SortSorted<T>(s: seq<T>, key: T -> Id, order: seq<Id>)
    ensures SortedByRank(SortByRank(s, key, order), key, order)
  {
    if |s| != 0 {
      SortSorted(s[1..], key, order);
      InsertSorted(s[0], SortByRank(s[1..], key, order), key, order);
    }
  }

  lemma {:induction false} InsertWithRank<T>(x: T, s: seq<T>, key: T -> Id, order: seq<Id>, k: int)
    requires SortedByRank(s, key, order)
    ensures WithRank(Insert(x, s, key, order), key, order, k)
         == (if Rank(x, key, order) == k then [x] else []) + WithRank(s, key, order, k)
  {
    var r := Insert(x, s, key, order);
    if |s| == 0 || Rank(x, key, order) <= Rank(s[0], key, order) {
      assert r[1..] == s;
    } else {
      assert r[1..] == Insert(x, s[1..], key, order);
      InsertWithRank(x, s[1..], key, order, k);
    }
  }

  /** Sorting keeps, for every rank, the relative order of the elements of that rank. */
  lemma {:induction false} SortStable<T>(s: seq<T>, key: T -> Id, order: seq<Id>, k: int)
    ensures WithRank(SortByRank(s, key, order), key, order, k) == WithRank(s, key, order, k)
  {
    if |s| != 0 {
      SortSorted(s[1..], key, order);
      InsertWithRank(s[0], SortByRank(s[1..], key, order), key, order, k);
      SortStable(s[1..], key, order, k);
    }
  }

  lemma {:induction false} WithRankBelowHead<T>(s: seq<T>, key: T -> Id, order: seq<Id>, k: int)
    requires SortedByRank(s, key, order)
    requires |s| != 0 && k < Rank(s[0], key, order)
    ensures WithRank(s, key, order, k) == []
  {
    if |s| > 1 {
      assert Rank(s[0], key, order) <= Rank(s[1], key, order);
      WithRankBelowHead(s[1..], key, order, k);
    }
  }

  lemma WithRankOfHead<T>(s: seq<T>, key: T -> Id, order: seq<Id>)
    requires |s| != 0
    ensures WithRank(s, key, order, Rank(s[0], key, order)) != []
  {
  }

  /** Two lists sorted by rank that agree on the elements of every rank are equal. */
  lemma {:induction false} StableSortUnique<T>(a: seq<T>, b: seq<T>, key: T -> Id, order: seq<Id>)
    requires SortedByRank(a, key, order) && SortedByRank(b, key, order)
    requires forall k :: WithRank(a, key, order, k) == WithRank(b, key, order, k)
    ensures a == b
    decreases |a| + |b|
  {
    if |a| == 0 {
      if |b| != 0 {
        WithRankOfHead(b, key, order);
        assert false;
      }
    } else if |b| == 0 {
      WithRankOfHead(a, key, order);
      assert false;
    } else {
      var ka, kb := Rank(a[0], key, order), Rank(b[0], key, order);
      if ka < kb {
        WithRankBelowHead(b, key, order, ka);
        WithRankOfHead(a, key, order);
        assert false;
      }
      if kb < ka {
        WithRankBelowHead(a, key, order, kb);
        WithRankOfHead(b, key, order);
        assert false;
      }
      assert WithRank(a, key, order, ka)[0] == a[0];
      assert WithRank(b, key, order, ka)[0] == b[0];
      assert a[0] == b[0];
      forall k
        ensures WithRank(a[1..], key, order, k) == WithRank(b[1..], key, order, k)
      {
        var head := if Rank(a[0], key, order) == k then [a[0]] else [];
        assert WithRank(a, key, order, k) == head + WithRank(a[1..], key, order, k);
        assert WithRank(b, key, order, k) == head + WithRank(b[1..], key, order, k);
        assert WithRank(a[1..], key, order, k) == (head + WithRank(a[1..], key, order, k))[|head|..];
        assert WithRank(b[1..], key, order, k) == (head + WithRank(b[1..], key, order, k))[|head|..];
      }
      StableSortUnique(a[1..], b[1..], key, order);
      assert a == [a[0]] + a[1..] && b == [b[0]] + b[1..];
    }
  }

  /** Any list that is sorted by the reorder comparator and keeps every rank's
      relative order (what a stable `sort` produces) is `SortByRank`. */
  lemma StableSortDeterminesReorder<T>(s: seq<T>, r: seq<T>, key: T -> Id, order: seq<Id>)
    requires SortedByRank(r, key, order)
    requires forall k :: WithRank(r, key, order, k) == WithRank(s, key, order, k)
    ensures r == SortByRank(s, key, order)
  {
    var t := SortByRank(s, key, order);
    SortSorted(s, key, order);
    forall k
      ensures WithRank(r, key, order, k) == WithRank(t, key, order, k)
    {
      SortStable(s, key, order, k);
    }
    StableSortUnique(r, t, key, order);
  }

  /** Elements whose id the request leaves out come first, in their original order. */
  lemma ReorderPlacesUnlistedFirst<T>(s: seq<T>, key: T -> Id, order: seq<Id>)
    ensures var r := SortByRank(s, key, order);
      forall i, j :: 0 <= i < j < |r| && key(r[j]) !in order ==> key(r[i]) !in order
    ensures WithRank(SortByRank(s, key, order), key, order, -1) == WithRank(s, key, order, -1)
  {
    SortSorted(s, key, order);
    SortStable(s, key, order, -1);
  }

  /** Listed elements appear in the order of the first occurrence of their ids
      in the request. */
  lemma ReorderFollowsRequest<T>(s: seq<T>, key: T -> Id, order: seq<Id>)
    ensures var r := SortByRank(s, key, order);
      forall i, j :: 0 <= i < j < |r| && key(r[i]) in order && key(r[j]) in order && key(r[i]) != key(r[j])
        ==> IndexOf(order, key(r[i])) < IndexOf(order, key(r[j]))
  {
    SortSorted(s, key, order);
  }

  /** Sorting a list the reorder already produced changes nothing: repeating a
      reorder request is harmless. */
  lemma ReorderIdempotent<T>(s: seq<T>, key: T -> Id, order: seq<Id>)
    ensures SortByRank(SortByRank(s, key, order), key, order) == SortByRank(s, key, order)
  {
    var r := SortByRank(s, key, order);
    SortSorted(s, key, order);
    StableSortDeterminesReorder(r, r, key, order);
  }

  /** An element appended under a fresh id is found at the end, and removing
      it there gives back the old list: `splice` undoes `push`. */
  lemma {:induction false} RemoveUndoesAppend<T>(s: seq<T>, x: T, key: T -> Id)
    requires forall i :: 0 <= i < |s| ==> key(s[i]) != key(x)
    ensures FindIndex(s + [x], key, key(x)) == |s|
    ensures RemoveAt(s + [x], |s|) == s
  {
    if |s| != 0 {
      assert (s + [x])[1..] == s[1..] + [x];
      RemoveUndoesAppend(s[1..], x, key);
    }
    assert (s + [x])[..|s|] == s;
  }
}
