/** Walking a path component by component, as a system does that resolves it. */
module Paths {
  import opened Wrappers
  import opened Sequences

  /**
   Where a walk from a directory ends, as the names of the directories below that one, or None
   once it has gone above it. `up` leads to the parent, and the components in `stay` nowhere.
   */
  function Walk<T(==)>(parts: seq<T>, up: T, stay: set<T>): Option<seq<T>> {
    if parts == [] then Some([])
    else
      var here :- Walk(parts[..|parts| - 1], up, stay);
      var last := parts[|parts| - 1];
      if last == up then (if here == [] then None else Some(here[..|here| - 1]))
      else if last in stay then Some(here)
      else Some(here + [last])
  }

  /** The components that name something. */
  function Named<T(==)>(parts: seq<T>, stay: set<T>): seq<T> {
    if parts == [] then []
    else Named(parts[..|parts| - 1], stay) + if parts[|parts| - 1] in stay then [] else [parts[|parts| - 1]]
  }

  /** A walk that ends below has never been above. */
  lemma {:induction false} NeverAbove<T>(parts: seq<T>, n: nat, up: T, stay: set<T>)
    requires n <= |parts| && Walk(parts, up, stay).Some?
    ensures Walk(parts[..n], up, stay).Some?
  {
    if n < |parts| {
      NeverAbove(parts[..|parts| - 1], n, up, stay);
      assert parts[..|parts| - 1][..n] == parts[..n];
    } else {
      assert parts[..n] == parts;
    }
  }

  /** Without a step up a walk only goes down. */
  lemma {:induction false} OnlyDown<T>(parts: seq<T>, up: T, stay: set<T>)
    requires up !in parts
    ensures Walk(parts, up, stay) == Some(Named(parts, stay))
  {
    if parts != [] {
      var n := |parts| - 1;
      assert parts[n] != up && forall part :: part in parts[..n] ==> part in parts;
      OnlyDown(parts[..n], up, stay);
      assert Named(parts[..n], stay) + [] == Named(parts[..n], stay);
    }
  }

  /** One component of a path: nothing or a separator stands on either side of it. */
  ghost predicate Between<T>(path: seq<T>, sep: T, a: seq<T>, part: seq<T>, b: seq<T>) {
    path == a + part + b && (a == [] || a[|a| - 1] == sep) && (b == [] || b[0] == sep)
  }

  ghost predicate HasPart<T(!new)>(path: seq<T>, sep: T, part: seq<T>) {
    exists a, b :: Between(path, sep, a, part, b)
  }

  /** The fields of a path are what stands between its separators. */
  lemma PartIff<T(!new)>(path: seq<T>, sep: T, part: seq<T>)
    requires sep !in part
    ensures part in Split(path, sep) <==> HasPart(path, sep, part)
  {
    if part in Split(path, sep) {
      PartIsThere(path, sep, part);
    }
    if HasPart(path, sep, part) {
      var a, b :| Between(path, sep, a, part, b);
      ThereIsPart(path, sep, a, part, b);
    }
  }

  lemma {:induction false} PartIsThere<T(!new)>(path: seq<T>, sep: T, part: seq<T>)
    requires part in Split(path, sep)
    ensures HasPart(path, sep, part)
  {
    var fields := Split(path, sep);
    var i :| 0 <= i < |fields| && fields[i] == part;
    JoinSplit(path, sep);
    FieldBetween(fields, sep, i);
  }

  lemma {:induction false} FieldBetween<T(!new)>(fields: seq<seq<T>>, sep: T, i: nat)
    requires i < |fields|
    ensures HasPart(Join(fields, sep), sep, fields[i])
  {
    var path := Join(fields, sep);
    if |fields| == 1 {
      assert Between(path, sep, [], fields[0], []);
    } else if i == 0 {
      assert Between(path, sep, [], fields[0], [sep] + Join(fields[1..], sep));
    } else {
      FieldBetween(fields[1..], sep, i - 1);
      var a, b :| Between(Join(fields[1..], sep), sep, a, fields[i], b);
      assert Between(path, sep, fields[0] + [sep] + a, fields[i], b);
    }
  }

  lemma ThereIsPart<T>(path: seq<T>, sep: T, a: seq<T>, part: seq<T>, b: seq<T>)
    requires Between(path, sep, a, part, b) && sep !in part
    ensures part in Split(path, sep)
  {
    SplitJoined([part], sep);
    assert Join([part], sep) == part;
    var tail := part + b;
    assert part in Split(tail, sep) by {
      if b == [] {
        assert tail == part;
      } else {
        assert tail == part + [sep] + b[1..];
        SplitConcat(part, sep, b[1..]);
      }
    }
    if a == [] {
      assert path == tail;
    } else {
      assert path == a[..|a| - 1] + [sep] + tail;
      SplitConcat(a[..|a| - 1], sep, tail);
    }
  }
}
