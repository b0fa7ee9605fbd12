/** The two array idioms the frontend reducers use, keyed by a record's `_id`:
    `list.filter(x => x._id !== id)` and `list.map(x => x._id === y._id ? y : x)`. */
module Lists {

  /** `r` keeps some of the elements of `s`, in their original order. */
  ghost predicate IsSubsequence<T>(r: seq<T>, s: seq<T>)
    decreases |s|
  {
    if r == [] then true
    else if s == [] then false
    else (r[0] == s[0] && IsSubsequence(r[1..], s[1..])) || IsSubsequence(r, s[1..])
  }

  /** No two elements share an id. */
  ghost predicate UniqueIds<T(!new), K>(s: seq<T>, idOf: T -> K) {
    forall i, j :: 0 <= i < j < |s| ==> idOf(s[i]) != idOf(s[j])
  }

  ghost predicate HasId<T(!new), K>(s: seq<T>, idOf: T -> K, id: K) {
    exists i :: 0 <= i < |s| && idOf(s[i]) == id
  }

  /** `s.filter(x => idOf(x) !== id)`: exactly the elements whose id differs. */
  function RemoveId<T(!new), K(==)>(s: seq<T>, idOf: T -> K, id: K): (r: seq<T>)
    ensures |r| <= |s|
    ensures forall x :: x in r <==> x in s && idOf(x) != id
    decreases |s|
  {
    if s == [] then []
    else if idOf(s[0]) != id then [s[0]] + RemoveId(s[1..], idOf, id)
    else RemoveId(s[1..], idOf, id)
  }

  /** `s.map(x => idOf(x) === idOf(y) ? y : x)`: every element carrying `y`'s id becomes `y`,
      every other element stays where it was. */
  function ReplaceId<T(!new), K(==)>(s: seq<T>, idOf: T -> K, y: T): (r: seq<T>)
    ensures |r| == |s|
    ensures forall i :: 0 <= i < |s| ==> r[i] == (if idOf(s[i]) == idOf(y) then y else s[i])
    decreases |s|
  {
    if s == [] then []
    else [if idOf(s[0]) == idOf(y) then y else s[0]] + ReplaceId(s[1..], idOf, y)
  }

  lemma {:induction false} SubsequenceOfTail<T(!new)>(r: seq<T>, s: seq<T>)
    requires s != [] && IsSubsequence(r, s[1..])
    ensures IsSubsequence(r, s)
  {
  }

  /** Removal keeps the order of what remains. */
  lemma {:induction false} RemoveIdIsSubsequence<T(!new), K>(s: seq<T>, idOf: T -> K, id: K)
    ensures IsSubsequence(RemoveId(s, idOf, id), s)
    decreases |s|
  {
    if s != [] {
      RemoveIdIsSubsequence(s[1..], idOf, id);
      var rest := RemoveId(s[1..], idOf, id);
      if idOf(s[0]) != id {
        assert ([s[0]] + rest)[1..] == rest;
      }
    }
  }

  /** Removing an id nobody carries changes nothing. */
  lemma {:induction false} RemoveAbsentId<T(!new), K>(s: seq<T>, idOf: T -> K, id: K)
    requires !HasId(s, idOf, id)
    ensures RemoveId(s, idOf, id) == s
    decreases |s|
  {
    if s != [] {
      assert idOf(s[0]) != id;
      assert !HasId(s[1..], idOf, id) by {
        forall i | 0 <= i < |s[1..]| ensures idOf(s[1..][i]) != id { assert s[1..][i] == s[i + 1]; }
      }
      RemoveAbsentId(s[1..], idOf, id);
      assert [s[0]] + s[1..] == s;
    }
  }

  lemma UniqueIdsOfTail<T(!new), K>(s: seq<T>, idOf: T -> K)
    requires s != [] && UniqueIds(s, idOf)
    ensures UniqueIds(s[1..], idOf)
    ensures !HasId(s[1..], idOf, idOf(s[0]))
  {
    assert forall i :: 0 <= i < |s[1..]| ==> s[1..][i] == s[i + 1];
  }

  /** With unique ids, removing an id that is present drops exactly one element. */
  lemma {:induction false} RemovePresentId<T(!new), K>(s: seq<T>, idOf: T -> K, id: K)
    requires UniqueIds(s, idOf) && HasId(s, idOf, id)
    ensures |RemoveId(s, idOf, id)| == |s| - 1
    decreases |s|
  {
    UniqueIdsOfTail(s, idOf);
    if idOf(s[0]) == id {
      RemoveAbsentId(s[1..], idOf, id);
    } else {
      var i :| 0 <= i < |s| && idOf(s[i]) == id;
      assert s[1..][i - 1] == s[i];
      RemovePresentId(s[1..], idOf, id);
    }
  }

  /** Replacing an id nobody carries changes nothing. */
  lemma ReplaceAbsentId<T(!new), K>(s: seq<T>, idOf: T -> K, y: T)
    requires !HasId(s, idOf, idOf(y))
    ensures ReplaceId(s, idOf, y) == s
  {
  }

  /** Removal preserves uniqueness of ids. */
  lemma {:induction false} RemoveIdKeepsUnique<T(!new), K>(s: seq<T>, idOf: T -> K, id: K)
    requires UniqueIds(s, idOf)
    ensures UniqueIds(RemoveId(s, idOf, id), idOf)
    decreases |s|
  {
    if s != [] {
      UniqueIdsOfTail(s, idOf);
      RemoveIdKeepsUnique(s[1..], idOf, id);
      var rest := RemoveId(s[1..], idOf, id);
      if idOf(s[0]) != id {
        forall x | x in rest ensures idOf(x) != idOf(s[0]) {
          assert x in s[1..];
        }
        var r := [s[0]] + rest;
        forall i, j | 0 <= i < j < |r| ensures idOf(r[i]) != idOf(r[j]) {
          if i == 0 { assert r[j] == rest[j - 1] && r[j] in rest; } else { assert r[i] == rest[i - 1] && r[j] == rest[j - 1]; }
        }
      }
    }
  }
}
