/**
 Publication keys: which names and versions are accepted, where a record lives, and what a
 lookup may return (src/storage.rs, src/galaxy.rs).
 */
module Keys {
  import opened Wrappers
  import opened Sequences
  import opened Paths

  /** A collection version. */
  datatype Key = Key(namespace: string, name: string, version: string)

  predicate IsDigit(c: char) { '0' <= c <= '9' }

  predicate IsAlphanumeric(c: char) { IsDigit(c) || 'A' <= c <= 'Z' || 'a' <= c <= 'z' }

  predicate HasDotDot(s: string) {
    exists i :: 0 <= i < |s| - 1 && s[i] == '.' && s[i + 1] == '.'
  }

  /** One part of a key that `validate_key` accepts. */
  predicate ValidPart(s: string) {
    && 0 < |s| <= 128
    && (forall c :: c in s ==> IsAlphanumeric(c) || c in "_-.+")
    && !HasDotDot(s)
  }

  predicate ValidKey(k: Key) {
    ValidPart(k.namespace) && ValidPart(k.name) && ValidPart(k.version)
  }

  /** `valid_name`: the namespace and name that the archive check accepts. */
  predicate ValidName(s: string) {
    && s != "" && |s| <= 128 && !HasDotDot(s)
    && (forall c :: c in s ==> IsAlphanumeric(c) || c in "_-.")
  }

  /** Names are the key parts without a plus, which versions may have. */
  lemma NameIff(s: string)
    ensures ValidName(s) <==> ValidPart(s) && '+' !in s
  {
    hide HasDotDot;
    assert forall c :: c in "_-.+" <==> c in "_-." || c == '+';
  }

  // Versions, items 2, 9 and 10 of Semantic Versioning 2.0.0.

  /** `str::split_once`, keeping the whole text when the separator is missing. */
  function Cut(s: string, sep: char): (r: (string, Option<string>))
    ensures sep !in r.0
    ensures s == if r.1.None? then r.0 else r.0 + [sep] + r.1.value
  {
    if s == "" then ("", None)
    else if s[0] == sep then ("", Some(s[1..]))
    else var (before, after) := Cut(s[1..], sep); ([s[0]] + before, after)
  }

  predicate Digits(s: string) {
    s != "" && forall c :: c in s ==> IsDigit(c)
  }

  predicate NoLeadingZero(s: string) {
    Digits(s) ==> |s| == 1 || s[0] != '0'
  }

  function Value(s: string): nat
    requires forall c :: c in s ==> IsDigit(c)
  {
    if s == "" then 0
    else
      var last := s[|s| - 1];
      assert IsDigit(last);
      10 * Value(s[..|s| - 1]) + (last as int - '0' as int)
  }

  predicate Identifier(s: string) {
    s != "" && forall c :: c in s ==> IsAlphanumeric(c) || c == '-'
  }

  /** major, minor and patch: decimal, no leading zero, within 64 bits. */
  predicate ValidNumbers(s: string) {
    var fields := Split(s, '.');
    |fields| == 3 && forall f :: f in fields ==> Digits(f) && NoLeadingZero(f) && Value(f) <= USIZE_MAX
  }

  predicate ValidPrerelease(s: string) {
    forall f :: f in Split(s, '.') ==> Identifier(f) && NoLeadingZero(f)
  }

  predicate ValidBuild(s: string) {
    forall f :: f in Split(s, '.') ==> Identifier(f)
  }

  predicate SemVer(s: string) {
    var (core, build) := Cut(s, '+');
    var (numbers, prerelease) := Cut(core, '-');
    && ValidNumbers(numbers)
    && (prerelease.Some? ==> ValidPrerelease(prerelease.value))
    && (build.Some? ==> ValidBuild(build.value))
  }

  /** `valid_version`. */
  predicate ValidVersion(s: string) {
    |s| <= 128 && SemVer(s)
  }

  // The same as a grammar: three numbers, identifiers after a dash, identifiers after a plus.

  function Suffix(mark: char, fields: Option<seq<string>>): string {
    if fields.None? then "" else [mark] + Join(fields.value, '.')
  }

  ghost predicate Spells(s: string, numbers: seq<string>, prerelease: Option<seq<string>>,
                         build: Option<seq<string>>) {
    && |numbers| == 3 && (forall f :: f in numbers ==> Digits(f) && NoLeadingZero(f) && Value(f) <= USIZE_MAX)
    && (prerelease.Some? ==>
          prerelease.value != [] && forall f :: f in prerelease.value ==> Identifier(f) && NoLeadingZero(f))
    && (build.Some? ==> build.value != [] && forall f :: f in build.value ==> Identifier(f))
    && s == Join(numbers, '.') + Suffix('-', prerelease) + Suffix('+', build)
  }

  lemma {:induction false} CutAt(a: string, sep: char, b: string)
    requires sep !in a
    ensures Cut(a, sep) == (a, None) && Cut(a + [sep] + b, sep) == (a, Some(b))
  {
    if a != "" {
      CutAt(a[1..], sep, b);
      assert a + [sep] + b == [a[0]] + (a[1..] + [sep] + b);
      assert a == [a[0]] + a[1..];
    } else {
      assert ("" + [sep] + b)[1..] == b;
    }
  }

  lemma {:induction false} JoinAlphabet(fields: seq<string>, c: char)
    requires c != '.' && forall f :: f in fields ==> c !in f
    ensures c !in Join(fields, '.')
  {
    if |fields| > 1 {
      JoinAlphabet(fields[1..], c);
    }
  }

  lemma SplitSuffix(fields: Option<seq<string>>)
    requires fields.Some? ==> fields.value != [] && forall f :: f in fields.value ==> Identifier(f)
    ensures fields.Some? ==> Split(Join(fields.value, '.'), '.') == fields.value && '+' !in Join(fields.value, '.')
  {
    if fields.Some? {
      SplitJoined(fields.value, '.');
      JoinAlphabet(fields.value, '+');
    }
  }

  lemma SpelledIsSemVer(s: string, numbers: seq<string>, prerelease: Option<seq<string>>, build: Option<seq<string>>)
    requires Spells(s, numbers, prerelease, build)
    ensures SemVer(s)
  {
    hide Join, Split, Value, IsAlphanumeric, Cut;
    var n := Join(numbers, '.');
    var core := n + Suffix('-', prerelease);
    SplitJoined(numbers, '.');
    JoinAlphabet(numbers, '+');
    JoinAlphabet(numbers, '-');
    SplitSuffix(prerelease);
    SplitSuffix(build);
    CutSuffix(core, '+', build);
    CutSuffix(n, '-', prerelease);
  }

  lemma CutSuffix(before: string, mark: char, fields: Option<seq<string>>)
    requires mark !in before
    ensures Cut(before + Suffix(mark, fields), mark) ==
            (before, if fields.None? then None else Some(Join(fields.value, '.')))
  {
    hide Join, Cut;
    CutAt(before, mark, if fields.Some? then Join(fields.value, '.') else "");
    if fields.Some? {
      assert before + Suffix(mark, fields) == before + [mark] + Join(fields.value, '.');
    } else {
      assert before + "" == before;
    }
  }

  lemma SemVerIsSpelled(s: string)
    returns (numbers: seq<string>, prerelease: Option<seq<string>>, build: Option<seq<string>>)
    requires SemVer(s)
    ensures Spells(s, numbers, prerelease, build)
  {
    hide Cut, Join, Split, Digits, NoLeadingZero, Identifier, Value;
    var (core, after) := Cut(s, '+');
    var (plain, before) := Cut(core, '-');
    numbers := Split(plain, '.');
    prerelease := if before.Some? then Some(Split(before.value, '.')) else None;
    build := if after.Some? then Some(Split(after.value, '.')) else None;
    JoinSplit(plain, '.');
    RejoinSuffix(plain, '-', before);
    RejoinSuffix(core, '+', after);
  }

  lemma RejoinSuffix(before: string, mark: char, after: Option<string>)
    ensures (if after.None? then before else before + [mark] + after.value)
         == before + Suffix(mark, if after.Some? then Some(Split(after.value, '.')) else None)
  {
    hide Join, Split;
    if after.Some? {
      JoinSplit(after.value, '.');
      assert before + [mark] + after.value == before + ([mark] + after.value);
    } else {
      assert before + "" == before;
    }
  }

  /** The cuts and splits accept exactly what the grammar spells. */
  lemma SemVerIff(s: string)
    ensures SemVer(s) <==> exists numbers, prerelease, build :: Spells(s, numbers, prerelease, build)
  {
    if SemVer(s) {
      var numbers, prerelease, build := SemVerIsSpelled(s);
    }
    if numbers, prerelease, build :| Spells(s, numbers, prerelease, build) {
      SpelledIsSemVer(s, numbers, prerelease, build);
    }
  }

  /** A dotted run of nonempty fields has no two dots in a row and none at either end. */
  ghost predicate Tidy(s: string) {
    s != "" && s[0] != '.' && s[|s| - 1] != '.' && !HasDotDot(s)
  }

  lemma NonemptyFieldsAreTidy(s: string)
    requires forall f :: f in Split(s, '.') ==> f != ""
    ensures Tidy(s)
  {
    assert Split(s, '.')[0] in Split(s, '.');
    forall i | 0 <= i < |s| && s[i] == '.' ensures 0 < i < |s| - 1 && s[i + 1] != '.' {
      SplitConcat(s[..i], '.', s[i + 1..]);
      assert s == s[..i] + ['.'] + s[i + 1..];
      var after := Split(s[i + 1..], '.');
      assert after[0] in Split(s, '.') && Split(s[..i], '.')[0] in Split(s, '.');
    }
  }

  /** Two tidy texts around any joiner, or a dot between them, have no dots in a row. */
  lemma TidyConcat(a: string, sep: char, b: string)
    requires Tidy(a) && Tidy(b)
    ensures Tidy(a + [sep] + b)
  {
    var s := a + [sep] + b;
    forall i | 0 <= i < |s| - 1 ensures !(s[i] == '.' && s[i + 1] == '.') {
      if i + 1 < |a| {
        assert s[i] == a[i] && s[i + 1] == a[i + 1];
      } else if i > |a| {
        assert s[i] == b[i - |a| - 1] && s[i + 1] == b[i - |a|];
      }
    }
  }

  lemma FieldsInAlphabet(s: string)
    requires forall f :: f in Split(s, '.') ==> Identifier(f)
    ensures Tidy(s) && forall c :: c in s ==> IsAlphanumeric(c) || c in "-."
  {
    NonemptyFieldsAreTidy(s);
    forall c | c in s ensures IsAlphanumeric(c) || c in "-." {
      CharsOfFields(s, '.', c);
    }
  }

  lemma {:induction false} CharsOfFields(s: string, sep: char, c: char)
    requires c in s
    ensures c == sep || exists f :: f in Split(s, sep) && c in f
  {
    var all, rest := Split(s, sep), Split(s[1..], sep);
    if c == s[0] {
      if c != sep {
        assert c in all[0] && all[0] in all;
      }
    } else {
      assert c in s[1..];
      CharsOfFields(s[1..], sep, c);
      if c != sep {
        var f :| f in rest && c in f;
        if s[0] == sep {
          assert f in all;
        } else {
          var i :| 0 <= i < |rest| && rest[i] == f;
          assert c in all[i] && all[i] in all;
        }
      }
    }
  }

  /** Every version the archive check accepts is a valid part of a key. */
  lemma VersionIsPart(s: string)
    requires ValidVersion(s)
    ensures ValidPart(s) && Tidy(s)
  {
    var (core, build) := Cut(s, '+');
    var (numbers, prerelease) := Cut(core, '-');
    FieldsInAlphabet(numbers);
    if prerelease.Some? {
      FieldsInAlphabet(prerelease.value);
      TidyConcat(numbers, '-', prerelease.value);
    }
    if build.Some? {
      FieldsInAlphabet(build.value);
      TidyConcat(core, '+', build.value);
    }
  }

  /** Whatever metadata the archive check accepts, `validate_key` accepts its key. */
  lemma AcceptedKeyIsValid(k: Key)
    requires ValidName(k.namespace) && ValidName(k.name) && ValidVersion(k.version)
    ensures ValidKey(k)
  {
    VersionIsPart(k.version);
  }

  // Object keys of the S3 backend.

  function UnderPrefix(prefix: string, suffix: string): string {
    if prefix == "" then suffix else prefix + "/" + suffix
  }

  function RecordKey(prefix: string, k: Key): string {
    UnderPrefix(prefix, "records/" + k.namespace + "/" + k.name + "/" + k.version + ".json")
  }

  /** The one name that a legacy record had instead of three. */
  function LegacyName(k: Key): string {
    k.namespace + "-" + k.name + "-" + k.version
  }

  function LegacyKey(prefix: string, k: Key): string {
    UnderPrefix(prefix, "records/" + LegacyName(k) + ".json")
  }

  function Structured(k: Key): seq<string> {
    ["records", k.namespace, k.name, k.version + ".json"]
  }

  function Legacy(k: Key): seq<string> {
    ["records", LegacyName(k) + ".json"]
  }

  lemma StructuredIsInjective(a: Key, b: Key)
    ensures Structured(a) == Structured(b) <==> a == b
  {
    if Structured(a) == Structured(b) {
      assert Structured(a)[1] == Structured(b)[1] && Structured(a)[2] == Structured(b)[2];
      assert Structured(a)[3][..|a.version|] == a.version && Structured(b)[3][..|b.version|] == b.version;
      assert |Structured(a)[3]| == |Structured(b)[3]|;
    }
  }

  lemma KeysAreJoins(prefix: string, k: Key)
    ensures RecordKey(prefix, k) == UnderPrefix(prefix, Join(Structured(k), '/'))
    ensures LegacyKey(prefix, k) == UnderPrefix(prefix, Join(Legacy(k), '/'))
  {
    var f := Structured(k);
    assert Join(f[3..], '/') == f[3];
    assert Join(f[2..], '/') == f[2] + "/" + Join(f[2..][1..], '/') && f[2..][1..] == f[3..];
    assert Join(f[1..], '/') == f[1] + "/" + Join(f[1..][1..], '/') && f[1..][1..] == f[2..];
    assert Join(f, '/') == f[0] + "/" + Join(f[1..], '/');
    assert Join(f, '/') == "records/" + k.namespace + "/" + k.name + "/" + k.version + ".json";
    var g := Legacy(k);
    assert Join(g[1..], '/') == g[1];
    assert Join(g, '/') == g[0] + "/" + Join(g[1..], '/');
    assert Join(g, '/') == "records/" + LegacyName(k) + ".json";
  }

  lemma NoSlashes(k: Key)
    requires ValidKey(k)
    ensures forall f :: f in Structured(k) || f in Legacy(k) ==> '/' !in f
  {
    assert '/' !in k.namespace && '/' !in k.name && '/' !in k.version;
  }

  lemma UnderPrefixInjective(prefix: string, a: string, b: string)
    ensures UnderPrefix(prefix, a) == UnderPrefix(prefix, b) <==> a == b
  {
    if prefix != "" && prefix + "/" + a == prefix + "/" + b {
      var n := |prefix + "/"|;
      assert a == (prefix + "/" + a)[n..] && b == (prefix + "/" + b)[n..];
    }
  }

  /** Different versions have different object keys, and none is another's legacy key. */
  lemma RecordKeysAreInjective(prefix: string, a: Key, b: Key)
    requires ValidKey(a) && ValidKey(b)
    ensures RecordKey(prefix, a) == RecordKey(prefix, b) <==> a == b
    ensures RecordKey(prefix, a) != LegacyKey(prefix, b)
  {
    KeysAreJoins(prefix, a);
    KeysAreJoins(prefix, b);
    NoSlashes(a);
    NoSlashes(b);
    SplitJoined(Structured(a), '/');
    SplitJoined(Structured(b), '/');
    SplitJoined(Legacy(b), '/');
    UnderPrefixInjective(prefix, Join(Structured(a), '/'), Join(Structured(b), '/'));
    UnderPrefixInjective(prefix, Join(Structured(a), '/'), Join(Legacy(b), '/'));
    StructuredIsInjective(a, b);
  }

  lemma SameFileName(a: string, b: string)
    ensures a + ".json" == b + ".json" <==> a == b
  {
    if a + ".json" == b + ".json" {
      assert a == (a + ".json")[..|a|] && b == (b + ".json")[..|b|];
    }
  }

  /** Legacy places are the same for all keys that are the same text with dashes between the parts. */
  lemma SameLegacyName(prefix: string, a: Key, b: Key)
    ensures LegacyKey(prefix, a) == LegacyKey(prefix, b) <==> LegacyName(a) == LegacyName(b)
    ensures Legacy(a) == Legacy(b) <==> LegacyName(a) == LegacyName(b)
  {
    var x, y := "records/" + LegacyName(a) + ".json", "records/" + LegacyName(b) + ".json";
    UnderPrefixInjective(prefix, x, y);
    SameFileName(LegacyName(a), LegacyName(b));
    if x == y {
      assert LegacyName(a) + ".json" == x[8..] && LegacyName(b) + ".json" == y[8..];
    }
    if Legacy(a) == Legacy(b) {
      assert Legacy(a)[1] == Legacy(b)[1];
    }
  }

  /** Unlike structured places these are shared: a dash may also stand inside of a part. */
  lemma LegacyNamesCollide()
    ensures exists a, b :: ValidKey(a) && ValidKey(b) && a != b && LegacyName(a) == LegacyName(b)
  {
    var a, b := Key("a", "b-c", "1"), Key("a-b", "c", "1");
    assert LegacyName(a) == "a-b-c-1" == LegacyName(b);
    assert ValidKey(a) && ValidKey(b) && a != b;
  }

  // File paths of the local backend. `Path::join` keeps a component `.`, and the system
  // drops it when it resolves the path.

  function Resolve(components: seq<string>): seq<string> {
    if components == [] then []
    else (if components[0] == "." then [] else [components[0]]) + Resolve(components[1..])
  }

  function RecordPath(k: Key): seq<string> {
    Resolve(Structured(k))
  }

  function LegacyPath(k: Key): seq<string> {
    Resolve(Legacy(k))
  }

  function Names(k: Key): seq<string> {
    Resolve([k.namespace, k.name])
  }

  lemma ResolveFirst(first: string, rest: seq<string>)
    ensures Resolve([first] + rest) == (if first == "." then [] else [first]) + Resolve(rest)
  {
    assert ([first] + rest)[1..] == rest;
  }

  lemma ResolveNames(a: string, b: string, rest: seq<string>)
    ensures Resolve([a, b] + rest) == (if a == "." then [] else [a]) + (if b == "." then [] else [b]) + Resolve(rest)
  {
    ResolveFirst(b, rest);
    ResolveFirst(a, [b] + rest);
    assert [a, b] + rest == [a] + ([b] + rest);
  }

  lemma PathShape(k: Key)
    ensures RecordPath(k) == ["records"] + Names(k) + [k.version + ".json"]
    ensures LegacyPath(k) == Legacy(k)
    ensures Names(k) == (if k.namespace == "." then [] else [k.namespace]) + (if k.name == "." then [] else [k.name])
  {
    var file := k.version + ".json";
    assert |file| > 1;
    ResolveFirst(file, []);
    ResolveNames(k.namespace, k.name, [file]);
    ResolveFirst("records", [k.namespace, k.name] + [file]);
    assert Structured(k) == ["records"] + ([k.namespace, k.name] + [file]);
    assert [file] == [file] + [] && [k.namespace, k.name] == [k.namespace, k.name] + [];
    ResolveNames(k.namespace, k.name, []);
    var g := Legacy(k)[1];
    assert |g| > 1;
    ResolveFirst(g, []);
    ResolveFirst("records", [g]);
    assert Legacy(k) == ["records"] + [g] && [g] == [g] + [];
  }

  lemma {:induction false} ResolveLast(components: seq<string>, last: string)
    ensures Resolve(components + [last]) == Resolve(components) + if last == "." then [] else [last]
  {
    if components == [] {
      ResolveFirst(last, []);
      assert [] + [last] == [last] == [last] + [];
    } else {
      ResolveLast(components[1..], last);
      assert (components + [last])[1..] == components[1..] + [last];
    }
  }

  lemma {:induction false} NamedIsResolved(components: seq<string>)
    requires "" !in components
    ensures Named(components, {"", "."}) == Resolve(components)
  {
    if components != [] {
      var n := |components| - 1;
      NamedIsResolved(components[..n]);
      ResolveLast(components[..n], components[n]);
      assert components[..n] + [components[n]] == components && components[n] in components;
    }
  }

  lemma NamesSomething(part: string)
    requires ValidPart(part)
    ensures part != "" && part != ".."
  {
    var dots := "..";
    assert dots[0] == '.' && dots[1] == '.';
    assert HasDotDot(dots);
  }

  /**
   A record file is in the directory `records`: no step on the way from the root to it is above
   the root, and it ends at the record path.
   */
  lemma RecordPathStaysBelow(k: Key)
    requires ValidKey(k)
    ensures Walk(Structured(k), "..", {"", "."}) == Some(RecordPath(k))
    ensures |RecordPath(k)| > 1 && RecordPath(k)[0] == "records"
  {
    var parts := Structured(k);
    NamesSomething(k.namespace);
    NamesSomething(k.name);
    assert |k.version + ".json"| > 2;
    OnlyDown(parts, "..", {"", "."});
    NamedIsResolved(parts);
    PathShape(k);
  }

  predicate OneDot(k: Key) {
    (k.namespace == ".") != (k.name == ".")
  }

  predicate TwoDots(k: Key) {
    k.namespace == "." && k.name == "."
  }

  /** The key whose namespace is the name of this one, and the other way round. */
  function Twin(k: Key): Key {
    Key(k.name, k.namespace, k.version)
  }

  /** Exactly which keys share a path. */
  lemma SamePathIff(a: Key, b: Key)
    ensures RecordPath(a) == RecordPath(b) <==> a == b || (OneDot(a) && b == Twin(a))
  {
    PathShape(a);
    PathShape(b);
    if RecordPath(a) == RecordPath(b) {
      SameNames(a, b);
    }
  }

  lemma SameNames(a: Key, b: Key)
    requires RecordPath(a) == RecordPath(b)
    ensures a == b || (OneDot(a) && b == Twin(a))
  {
    PathShape(a);
    PathShape(b);
    var p, q, n := RecordPath(a), RecordPath(b), |Names(a)|;
    assert |p| == n + 2 && |q| == |Names(b)| + 2;
    assert p[n + 1] == a.version + ".json" && q[n + 1] == b.version + ".json";
    SameFileName(a.version, b.version);
    if n == 2 {
      assert p[1] == a.namespace && p[2] == a.name && q[1] == b.namespace && q[2] == b.name;
    } else if n == 1 {
      assert p[1] == (if a.namespace == "." then a.name else a.namespace);
      assert q[1] == (if b.namespace == "." then b.name else b.namespace);
    }
  }

  /** Exactly which structured paths are legacy paths. */
  lemma LegacyPathIff(k: Key, legacy: Key)
    ensures RecordPath(k) == LegacyPath(legacy) <==> TwoDots(k) && k.version == LegacyName(legacy)
  {
    PathShape(k);
    PathShape(legacy);
    SameFileName(k.version, LegacyName(legacy));
    if RecordPath(k) == LegacyPath(legacy) {
      assert RecordPath(k)[1] == LegacyPath(legacy)[1];
    }
  }

  /** A second version is stored at the path of `k`. */
  ghost predicate Collides(k: Key) {
    exists other :: ValidKey(other) && other != k && RecordPath(other) == RecordPath(k)
  }

  /**
   On local disk a key shares its path with another one exactly when one of its namespace
   and name is a single dot. (`valid_name` accepts a single dot.)
   */
  lemma LocalPathsCollide(k: Key)
    requires ValidKey(k)
    ensures Collides(k) <==> OneDot(k)
  {
    if OneDot(k) {
      SamePathIff(k, Twin(k));
      assert Twin(k) != k && ValidKey(Twin(k));
    } else if Collides(k) {
      var other :| ValidKey(other) && other != k && RecordPath(other) == RecordPath(k);
      SamePathIff(k, other);
    }
  }

  lemma SamePathSameKey(a: Key, b: Key)
    requires !OneDot(a) && RecordPath(a) == RecordPath(b)
    ensures a == b
  {
    SamePathIff(a, b);
  }

  // Directories of the local backend.

  /** The directory in which the record file of `k` is. */
  function RecordDir(k: Key): seq<string> {
    ["records"] + Names(k)
  }

  /**
   The directories that `create_dir_all` makes for a record of `k`, outermost first. Where the
   collection name is a single dot it makes only what is above: `mkdir` makes no `a/.`.
   */
  function DirsMade(k: Key): (dirs: seq<seq<string>>)
    ensures |dirs| <= |RecordDir(k)|
    ensures forall i :: 0 <= i < |dirs| ==> dirs[i] == RecordDir(k)[..i + 1]
  {
    var depth := if k.name != "." then |RecordDir(k)| else if k.namespace != "." then 1 else 0;
    seq(depth, i requires 0 <= i < depth => RecordDir(k)[..i + 1])
  }

  lemma PathInDir(k: Key)
    ensures RecordPath(k) == RecordDir(k) + [k.version + ".json"]
    ensures |RecordPath(k)| == |RecordDir(k)| + 1 && RecordPath(k)[..|RecordDir(k)|] == RecordDir(k)
    ensures k.name != "." ==> |DirsMade(k)| == |RecordDir(k)| && DirsMade(k)[|RecordDir(k)| - 1] == RecordDir(k)
    ensures k.name == "." ==> RecordDir(k) !in DirsMade(k)
  {
    PathShape(k);
    ResolveNames(k.namespace, k.name, []);
  }

  /** Some publication makes a directory of this path. */
  ghost predicate MayBeDir(path: seq<string>) {
    exists o, i :: ValidKey(o) && 0 <= i < |DirsMade(o)| && DirsMade(o)[i] == path
  }

  /**
   A directory may stand where a record file belongs, exactly if one of the two names is a
   single dot and the file name could itself be a name.
   */
  lemma RecordPathMayBeDirIff(k: Key)
    requires ValidKey(k)
    ensures MayBeDir(RecordPath(k)) <==> (OneDot(k) || TwoDots(k)) && ValidPart(k.version + ".json")
  {
    PathShape(k);
    var file := k.version + ".json";
    if MayBeDir(RecordPath(k)) {
      var o, i :| ValidKey(o) && 0 <= i < |DirsMade(o)| && DirsMade(o)[i] == RecordPath(k);
      DirOfKey(k, o, i);
    }
    if (OneDot(k) || TwoDots(k)) && ValidPart(file) {
      var o := if TwoDots(k) then Key(file, "x", "1")
        else Key(if k.name == "." then k.namespace else k.name, file, "1");
      PathShape(o);
      PathInDir(o);
      assert |file| > 1;
      assert ValidKey(o);
      var i := if TwoDots(k) then 1 else 2;
      assert RecordDir(o)[..i + 1] == RecordPath(k);
      assert DirsMade(o)[i] == RecordPath(k);
    }
  }

  lemma DirOfKey(k: Key, o: Key, i: nat)
    requires ValidKey(k) && ValidKey(o) && i < |DirsMade(o)| && DirsMade(o)[i] == RecordPath(k)
    ensures (OneDot(k) || TwoDots(k)) && ValidPart(k.version + ".json")
  {
    PathShape(k);
    PathShape(o);
    var p := RecordPath(k);
    assert p == RecordDir(o)[..i + 1] && p[|p| - 1] == k.version + ".json";
    assert RecordDir(o)[|p| - 1] == k.version + ".json";
  }
}
