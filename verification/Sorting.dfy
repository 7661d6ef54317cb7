/** The stable sort of the standard library, as a specification. */
module Sorting {

  ghost predicate Preorder<T(!new)>(le: (T, T) -> bool) {
    && (forall a, b :: le(a, b) || le(b, a))
    && (forall a, b, c :: le(a, b) && le(b, c) ==> le(a, c))
  }

  ghost predicate Ordered<T(!new)>(s: seq<T>, le: (T, T) -> bool) {
    forall i, j :: 0 <= i < j < |s| ==> le(s[i], s[j])
  }

  /** Puts `x` behind everything that is not greater. */
  function Insert<T>(s: seq<T>, x: T, le: (T, T) -> bool): seq<T> {
    if s == [] || le(s[|s| - 1], x) then s + [x] else Insert(s[..|s| - 1], x, le) + [s[|s| - 1]]
  }

  function SortBy<T>(s: seq<T>, le: (T, T) -> bool): seq<T> {
    if s == [] then [] else Insert(SortBy(s[..|s| - 1], le), s[|s| - 1], le)
  }

  lemma Append<T(!new)>(s: seq<T>, z: T, le: (T, T) -> bool)
    requires Ordered(s, le) && forall i :: 0 <= i < |s| ==> le(s[i], z)
    ensures Ordered(s + [z], le)
  {
  }

  lemma {:induction false} InsertKeeps<T(!new)>(s: seq<T>, x: T, le: (T, T) -> bool)
    requires Preorder(le) && Ordered(s, le)
    ensures Ordered(Insert(s, x, le), le) && multiset(Insert(s, x, le)) == multiset(s) + multiset{x}
  {
    var n := |s| - 1;
    if s == [] {
    } else if le(s[n], x) {
      forall i | 0 <= i < |s| ensures le(s[i], x) {
        assert i == n || le(s[i], s[n]);
      }
      Append(s, x, le);
    } else {
      var front := Insert(s[..n], x, le);
      InsertKeeps(s[..n], x, le);
      assert s == s[..n] + [s[n]];
      forall i | 0 <= i < |front| ensures le(front[i], s[n]) {
        InsertedFrom(s[..n], x, front, i);
      }
      Append(front, s[n], le);
    }
  }

  lemma InsertedFrom<T>(s: seq<T>, x: T, t: seq<T>, i: nat)
    requires multiset(t) == multiset(s) + multiset{x} && i < |t|
    ensures t[i] == x || exists j :: 0 <= j < |s| && s[j] == t[i]
  {
    assert t[i] in multiset(t);
  }

  /** The result is ordered and has the same elements, each as often as before. */
  lemma {:induction false} SortBySorts<T(!new)>(s: seq<T>, le: (T, T) -> bool)
    requires Preorder(le)
    ensures Ordered(SortBy(s, le), le) && multiset(SortBy(s, le)) == multiset(s) && |SortBy(s, le)| == |s|
  {
    if s != [] {
      var n := |s| - 1;
      SortBySorts(s[..n], le);
      InsertKeeps(SortBy(s[..n], le), s[n], le);
      assert s == s[..n] + [s[n]];
      SameSize(s, SortBy(s, le));
    }
  }

  lemma SameSize<T>(s: seq<T>, t: seq<T>)
    requires multiset(s) == multiset(t)
    ensures |s| == |t|
  {
    assert |multiset(s)| == |s| && |multiset(t)| == |t|;
  }
}
