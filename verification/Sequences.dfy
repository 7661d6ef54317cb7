/** Splitting and joining texts, as Rust's `split` does: always at least one field. */
module Sequences {

  function Split<T(==)>(s: seq<T>, sep: T): (fields: seq<seq<T>>)
    ensures |fields| >= 1
  {
    if s == [] then [[]]
    else
      var rest := Split(s[1..], sep);
      if s[0] == sep then [[]] + rest else [[s[0]] + rest[0]] + rest[1..]
  }

  function Join<T>(fields: seq<seq<T>>, sep: T): seq<T> {
    if |fields| == 0 then [] else if |fields| == 1 then fields[0]
    else fields[0] + [sep] + Join(fields[1..], sep)
  }

  /** The fields of a text are exactly the pieces without separator it was joined from. */
  lemma {:induction false} SplitJoined<T>(fields: seq<seq<T>>, sep: T)
    requires |fields| >= 1 && forall f :: f in fields ==> sep !in f
    ensures Split(Join(fields, sep), sep) == fields
    decreases |fields|, |fields[0]|
  {
    var s := Join(fields, sep);
    if fields[0] == [] {
      if |fields| > 1 {
        assert s[0] == sep && s[1..] == Join(fields[1..], sep);
        SplitJoined(fields[1..], sep);
      }
    } else {
      var shorter := [fields[0][1..]] + fields[1..];
      assert fields[0][0] in fields[0];
      assert forall f :: f in shorter ==> sep !in f by {
        forall f | f in shorter ensures sep !in f {
          if f == fields[0][1..] { assert forall c :: c in f ==> c in fields[0]; }
        }
      }
      assert shorter[1..] == fields[1..];
      assert s[0] == fields[0][0] && s[1..] == Join(shorter, sep);
      SplitJoined(shorter, sep);
      assert [s[0]] + shorter[0] == fields[0];
    }
  }

  /** No field holds the separator, and joining the fields gives back the text. */
  lemma {:induction false} JoinSplit<T>(s: seq<T>, sep: T)
    ensures Join(Split(s, sep), sep) == s
    ensures forall f :: f in Split(s, sep) ==> sep !in f
  {
    if s != [] {
      JoinSplit(s[1..], sep);
      var rest, all := Split(s[1..], sep), Split(s, sep);
      if s[0] == sep {
        assert all[1..] == rest;
      } else {
        assert all[1..] == rest[1..] && all[0] == [s[0]] + rest[0];
        assert Join(all, sep) == [s[0]] + Join(rest, sep);
      }
      assert s == [s[0]] + s[1..];
      forall f | f in all ensures sep !in f {
        if s[0] != sep && f == [s[0]] + rest[0] {
          assert rest[0] in rest;
        }
      }
    }
  }

  /** A separator between two texts separates their fields. */
  lemma {:induction false} SplitConcat<T>(a: seq<T>, sep: T, b: seq<T>)
    ensures Split(a + [sep] + b, sep) == Split(a, sep) + Split(b, sep)
  {
    var s := a + [sep] + b;
    if a == [] {
      assert s[1..] == b;
    } else {
      assert s[0] == a[0] && s[1..] == a[1..] + [sep] + b;
      SplitConcat(a[1..], sep, b);
    }
  }

  lemma TwiceCounts<T>(s: seq<T>, i: nat, j: nat)
    requires i < j < |s|
    ensures s[i] == s[j] ==> multiset(s)[s[i]] >= 2
  {
    assert s == s[..j] + s[j..] && s[..j][i] == s[i] && s[j..][0] == s[j];
    assert s[i] in multiset(s[..j]) && s[j] in multiset(s[j..]);
  }

  predicate IsPrefix<T(==)>(p: seq<T>, s: seq<T>) {
    |p| <= |s| && s[..|p|] == p
  }
}
