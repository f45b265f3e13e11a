/** Orders on collections: the creation order the store keeps (ids and
    creation stamps grow with every insert), the newest-first order of the
    `sort({ createdAt: -1 })` listings and the ascending order of
    `sort({ date: 1 })`. */
module Ordering {

  /** Keys strictly increase along `s` and stay below `bound`. */
  ghost predicate Increasing<T>(s: seq<T>, key: T -> int, bound: int)
  {
    && (forall i :: 0 <= i < |s| ==> key(s[i]) < bound)
    && (forall i, j :: 0 <= i < j < |s| ==> key(s[i]) < key(s[j]))
  }

  /** A collection in creation order: ids and creation stamps both issued by a
      clock that now reads `clock`. */
  ghost predicate Stamped<T>(s: seq<T>, id: T -> int, created: T -> int, clock: int)
  {
    Increasing(s, id, clock) && Increasing(s, created, clock)
  }

  ghost predicate Ascending<T>(s: seq<T>, key: T -> int)
  {
    forall i, j :: 0 <= i < j < |s| ==> key(s[i]) <= key(s[j])
  }

  ghost predicate StrictlyDescending<T>(s: seq<T>, key: T -> int)
  {
    forall i, j :: 0 <= i < j < |s| ==> key(s[i]) > key(s[j])
  }

  // ---- keeping the creation order ----

  /** Inserting a document stamped with the current clock, then advancing the clock. */
  lemma StampedAppend<T>(s: seq<T>, id: T -> int, created: T -> int, clock: int, x: T)
    requires Stamped(s, id, created, clock)
    requires id(x) == clock && created(x) == clock
    ensures Stamped(s + [x], id, created, clock + 1)
  {
    var t := s + [x];
    assert forall i :: 0 <= i < |s| ==> t[i] == s[i];
    assert t[|s|] == x;
  }

  /** Deleting the document at index `i`. */
  lemma StampedRemove<T>(s: seq<T>, id: T -> int, created: T -> int, clock: int, i: nat)
    requires Stamped(s, id, created, clock) && i < |s|
    ensures Stamped(s[..i] + s[i + 1..], id, created, clock)
  {
    var r := s[..i] + s[i + 1..];
    forall a | 0 <= a < |r|
      ensures r[a] == s[if a < i then a else a + 1]
    {
    }
  }

  /** Replacing the document at index `i` by one with the same id and stamp. */
  lemma StampedReplace<T>(s: seq<T>, id: T -> int, created: T -> int, clock: int, i: nat, x: T)
    requires Stamped(s, id, created, clock) && i < |s|
    requires id(x) == id(s[i]) && created(x) == created(s[i])
    ensures Stamped(s[i := x], id, created, clock)
  {
  }

  // ---- newest first ----

  function NewestFirst<T>(s: seq<T>): (r: seq<T>)
    ensures |r| == |s|
    ensures forall k :: 0 <= k < |s| ==> r[k] == s[|s| - 1 - k]
  {
    if s == [] then [] else [s[|s| - 1]] + NewestFirst(s[..|s| - 1])
  }

  lemma {:induction false} NewestFirstPermutes<T>(s: seq<T>)
    ensures multiset(NewestFirst(s)) == multiset(s)
  {
    if s != [] {
      var n := |s| - 1;
      NewestFirstPermutes(s[..n]);
      assert s == s[..n] + [s[n]];
    }
  }

  /** On a collection in creation order, newest-first lists every document once,
      in strictly decreasing order of the key. */
  lemma NewestFirstDescending<T>(s: seq<T>, key: T -> int, bound: int)
    requires Increasing(s, key, bound)
    ensures StrictlyDescending(NewestFirst(s), key)
    ensures multiset(NewestFirst(s)) == multiset(s)
  {
    NewestFirstPermutes(s);
  }

  // ---- ascending by a key (ties in no particular order) ----

  function Insert<T>(x: T, s: seq<T>, key: T -> int): seq<T>
  {
    if s == [] || key(x) <= key(s[0]) then [x] + s else [s[0]] + Insert(x, s[1..], key)
  }

  function SortBy<T>(s: seq<T>, key: T -> int): seq<T>
  {
    if s == [] then [] else Insert(s[0], SortBy(s[1..], key), key)
  }

  lemma {:induction false} InsertPermutes<T>(x: T, s: seq<T>, key: T -> int)
    ensures multiset(Insert(x, s, key)) == multiset(s) + multiset{x}
  {
    if s != [] && key(x) > key(s[0]) {
      InsertPermutes(x, s[1..], key);
      assert s == [s[0]] + s[1..];
    }
  }

  /** A lower bound of `x` and of every element of `s` bounds the insertion too. */
  lemma {:induction false} InsertAbove<T>(x: T, s: seq<T>, key: T -> int, low: int)
    requires low <= key(x)
    requires forall i :: 0 <= i < |s| ==> low <= key(s[i])
    ensures forall i :: 0 <= i < |Insert(x, s, key)| ==> low <= key(Insert(x, s, key)[i])
  {
    if s != [] && key(x) > key(s[0]) {
      InsertAbove(x, s[1..], key, low);
    }
  }

  lemma {:induction false} InsertSorted<T>(x: T, s: seq<T>, key: T -> int)
    requires Ascending(s, key)
    ensures Ascending(Insert(x, s, key), key)
  {
    if s != [] && key(x) > key(s[0]) {
      InsertSorted(x, s[1..], key);
      InsertAbove(x, s[1..], key, key(s[0]));
    }
  }

  /** Sorting yields the same documents in ascending order of the key. */
  lemma {:induction false} SortBySorted<T>(s: seq<T>, key: T -> int)
    ensures Ascending(SortBy(s, key), key)
    ensures multiset(SortBy(s, key)) == multiset(s)
  {
    if s != [] {
      SortBySorted(s[1..], key);
      InsertSorted(s[0], SortBy(s[1..], key), key);
      InsertPermutes(s[0], SortBy(s[1..], key), key);
      assert s == [s[0]] + s[1..];
    }
  }
}
