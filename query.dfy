/** The two store queries the handlers build on: `findOne(filter)`, which yields
    the first matching document in natural (insertion) order, and
    `deleteOne(filter)`, which removes that document if there is one. A filter
    is an equality on a key of the document. */
module Query {
  import opened Records

  predicate Holds<T, K(==)>(s: seq<T>, key: T -> K, k: K)
  {
    exists i :: 0 <= i < |s| && key(s[i]) == k
  }

  /** No two documents of the collection share a key. */
  ghost predicate Unique<T, K>(s: seq<T>, key: T -> K)
  {
    forall i, j :: 0 <= i < j < |s| ==> key(s[i]) != key(s[j])
  }

  function Find<T, K(==)>(s: seq<T>, key: T -> K, k: K): (r: Option<nat>)
    ensures r.None? <==> !Holds(s, key, k)
    ensures r.Some? ==> r.value < |s| && key(s[r.value]) == k
    ensures r.Some? ==> forall j :: 0 <= j < r.value ==> key(s[j]) != k
  {
    if s == [] then None
    else if key(s[0]) == k then Some(0)
    else match Find(s[1..], key, k)
      case None => None
      case Some(j) => Some(j + 1)
  }

  /** Two filters that match the same documents find the same one. */
  lemma {:induction false} FindSameMatches<T, K, L>(s: seq<T>, key: T -> K, k: K, other: T -> L, l: L)
    requires forall x :: key(x) == k <==> other(x) == l
    ensures Find(s, key, k) == Find(s, other, l)
    ensures Holds(s, key, k) <==> Holds(s, other, l)
  {
    if s != [] {
      FindSameMatches(s[1..], key, k, other, l);
    }
  }

  function RemoveFirst<T, K(==)>(s: seq<T>, key: T -> K, k: K): (r: seq<T>)
  {
    match Find(s, key, k)
    case None => s
    case Some(i) => s[..i] + s[i + 1..]
  }

  /** deleteOne removes at most one document, only one whose key matches, and
      removes one whenever one matches. */
  lemma RemoveFirstEffect<T, K>(s: seq<T>, key: T -> K, k: K)
    ensures var r := RemoveFirst(s, key, k);
      && multiset(r) <= multiset(s)
      && |r| == (if Holds(s, key, k) then |s| - 1 else |s|)
      && (forall x :: x in multiset(s) && key(x) != k ==> multiset(r)[x] == multiset(s)[x])
  {
    match Find(s, key, k)
    case None =>
    case Some(i) =>
      assert s == s[..i] + [s[i]] + s[i + 1..];
      assert multiset(s) == multiset(s[..i] + s[i + 1..]) + multiset{s[i]};
  }

  /** Relative order of the surviving documents is kept: those before the
      removed one stay in place, those after it move up by one. */
  lemma RemoveFirstKeepsOrder<T, K>(s: seq<T>, key: T -> K, k: K)
    requires Holds(s, key, k)
    ensures var i := Find(s, key, k).value; var r := RemoveFirst(s, key, k);
      |r| == |s| - 1 && r[..i] == s[..i] && r[i..] == s[i + 1..]
  {
    var i := Find(s, key, k).value;
    assert RemoveFirst(s, key, k) == s[..i] + s[i + 1..];
  }

  /** With unique keys, after deleteOne no document matches the key any more. */
  lemma {:induction false} RemoveFirstClears<T, K>(s: seq<T>, key: T -> K, k: K)
    requires Unique(s, key)
    ensures !Holds(RemoveFirst(s, key, k), key, k)
    ensures Unique(RemoveFirst(s, key, k), key)
  {
    var r := RemoveFirst(s, key, k);
    match Find(s, key, k)
    case None =>
    case Some(i) =>
      forall j | 0 <= j < |r|
        ensures key(r[j]) != k
      {
        if j < i {
          assert r[j] == s[j];
        } else {
          assert r[j] == s[j + 1];
        }
      }
      forall a, b | 0 <= a < b < |r|
        ensures key(r[a]) != key(r[b])
      {
        var a' := if a < i then a else a + 1;
        var b' := if b < i then b else b + 1;
        assert r[a] == s[a'] && r[b] == s[b'];
      }
  }

  /** Inserting a document whose key is not yet held keeps keys unique, and the
      key is held afterwards. */
  lemma AppendKeepsUnique<T, K>(s: seq<T>, key: T -> K, x: T)
    requires Unique(s, key)
    requires !Holds(s, key, key(x))
    ensures Unique(s + [x], key)
    ensures Holds(s + [x], key, key(x))
  {
    assert (s + [x])[|s|] == x;
  }

  /** Inserting a document and then deleting by its key restores the collection,
      provided the key was not held before. */
  lemma {:induction false} AppendThenRemove<T, K>(s: seq<T>, key: T -> K, x: T)
    requires !Holds(s, key, key(x))
    ensures RemoveFirst(s + [x], key, key(x)) == s
  {
    var t := s + [x];
    assert t[|s|] == x;
    forall j | 0 <= j < |s|
      ensures key(t[j]) != key(x)
    {
      assert t[j] == s[j];
    }
    assert Find(t, key, key(x)) == Some(|s|);
    assert t[..|s|] == s;
  }
}
