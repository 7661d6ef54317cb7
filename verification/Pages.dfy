/** The catalog as clients page through it (`list_collection_records` in src/app.rs). */
module Pages {
  import opened Wrappers
  import opened Keys
  import opened Storage
  import opened Sorting

  datatype Query = Query(
    search: Option<string>,
    page: Option<nat>,
    namespace: Option<string>,
    collection: Option<string>,
    limit: Option<nat>,
    offset: Option<nat>)

  /** One response: its records, how many match in all, and the query of the next link. */
  datatype Page = Page(data: seq<Record>, total: nat, next: Option<Query>)

  // Filters.

  function Lower(c: char): char {
    if 'A' <= c <= 'Z' then ((c as int) + 32) as char else c
  }

  function ToLower(s: string): (r: string)
    ensures |r| == |s|
  {
    seq(|s|, i requires 0 <= i < |s| => Lower(s[i]))
  }

  predicate StandsAt(s: string, needle: string, i: nat) {
    i <= |s| - |needle| && s[i..i + |needle|] == needle
  }

  predicate Contains(s: string, needle: string) {
    exists i :: 0 <= i <= |s| && StandsAt(s, needle, i)
  }

  predicate Matches(q: Query, r: Record) {
    && (q.namespace.Some? ==> r.key.namespace == q.namespace.value)
    && (q.collection.Some? ==> r.key.name == q.collection.value)
    && (q.search.Some? ==> Contains(ToLower(r.key.namespace + "." + r.key.name), ToLower(q.search.value)))
  }

  /** The same character, or a letter and its other case. */
  predicate SameLetter(c: char, d: char) {
    c == d || ('A' <= c <= 'Z' && d as int == c as int + 32) || ('A' <= d <= 'Z' && c as int == d as int + 32)
  }

  lemma ToLowerIff(s: string, t: string)
    ensures ToLower(s) == ToLower(t) <==> |s| == |t| && forall i :: 0 <= i < |s| ==> SameLetter(s[i], t[i])
  {
    if ToLower(s) == ToLower(t) {
      forall i | 0 <= i < |s| ensures SameLetter(s[i], t[i]) {
        assert ToLower(s)[i] == ToLower(t)[i];
      }
    }
  }

  /** The search text stands somewhere in `namespace.name`, in whatever case. */
  lemma SearchIff(q: Query, r: Record)
    requires q.namespace.None? && q.collection.None? && q.search.Some?
    ensures Matches(q, r) <==>
            exists a, b, found :: a + found + b == r.key.namespace + "." + r.key.name
                                  && ToLower(found) == ToLower(q.search.value)
  {
    var name, needle := r.key.namespace + "." + r.key.name, q.search.value;
    if Matches(q, r) {
      var i :| 0 <= i <= |name| && StandsAt(ToLower(name), ToLower(needle), i);
      var found := name[i..i + |needle|];
      assert ToLower(found) == ToLower(name)[i..i + |needle|];
      assert name[..i] + found + name[i + |needle|..] == name;
    }
    if a, b, found :| a + found + b == name && ToLower(found) == ToLower(needle) {
      assert ToLower(name)[|a|..|a| + |found|] == ToLower(found);
      assert StandsAt(ToLower(name), ToLower(needle), |a|);
    }
  }

  /** `retain`. */
  function Retain<T(!new)>(s: seq<T>, keep: T -> bool): (r: seq<T>)
    ensures |r| <= |s| && forall x :: x in r <==> x in s && keep(x)
  {
    if s == [] then []
    else
      var last := s[|s| - 1];
      assert s == s[..|s| - 1] + [last];
      Retain(s[..|s| - 1], keep) + if keep(last) then [last] else []
  }

  lemma {:induction false} RetainSame<T(!new)>(s: seq<T>, f: T -> bool, g: T -> bool)
    requires forall x :: f(x) <==> g(x)
    ensures Retain(s, f) == Retain(s, g)
  {
    if s != [] {
      RetainSame(s[..|s| - 1], f, g);
    }
  }

  lemma {:induction false} RetainTwice<T(!new)>(s: seq<T>, f: T -> bool, g: T -> bool, h: T -> bool)
    requires forall x :: h(x) <==> f(x) && g(x)
    ensures Retain(Retain(s, f), g) == Retain(s, h)
  {
    if s != [] {
      var n := |s| - 1;
      var front := Retain(s[..n], f);
      RetainTwice(s[..n], f, g, h);
      assert (front + [s[n]])[..|front|] == front;
      assert front + [] == front && Retain(s[..n], h) + [] == Retain(s[..n], h);
    }
  }

  function Matching(q: Query, records: seq<Record>): seq<Record> {
    Retain(records, (r: Record) => Matches(q, r))
  }

  // The order of namespace, name and version.

  function Compare(a: string, b: string): (r: int)
    ensures r == 0 <==> a == b
  {
    if a == "" || b == "" then |a| - |b|
    else if a[0] != b[0] then a[0] as int - b[0] as int
    else
      assert a == [a[0]] + a[1..] && b == [b[0]] + b[1..];
      Compare(a[1..], b[1..])
  }

  predicate KeyLe(k: Key, l: Key) {
    var byNamespace, byName := Compare(k.namespace, l.namespace), Compare(k.name, l.name);
    if byNamespace != 0 then byNamespace < 0 else if byName != 0 then byName < 0 else Compare(k.version, l.version) <= 0
  }

  predicate RecordLe(r: Record, s: Record) {
    KeyLe(r.key, s.key)
  }

  lemma {:induction false} CompareOpposite(a: string, b: string)
    ensures Compare(a, b) == -Compare(b, a)
  {
    if a != "" && b != "" && a[0] == b[0] {
      CompareOpposite(a[1..], b[1..]);
    }
  }

  lemma {:induction false} CompareTransitive(a: string, b: string, c: string)
    ensures Compare(a, b) <= 0 && Compare(b, c) <= 0 ==>
              Compare(a, c) <= 0 && (Compare(a, c) == 0 ==> Compare(a, b) == 0 && Compare(b, c) == 0)
  {
    if a != "" && b != "" && c != "" && a[0] == b[0] == c[0] {
      CompareTransitive(a[1..], b[1..], c[1..]);
    }
  }

  lemma KeyLeTotal(k: Key, l: Key)
    ensures KeyLe(k, l) || KeyLe(l, k)
    ensures KeyLe(k, l) && KeyLe(l, k) ==> k == l
  {
    CompareOpposite(k.namespace, l.namespace);
    CompareOpposite(k.name, l.name);
    CompareOpposite(k.version, l.version);
  }

  lemma KeyLeTransitive(k: Key, l: Key, m: Key)
    requires KeyLe(k, l) && KeyLe(l, m)
    ensures KeyLe(k, m)
  {
    CompareTransitive(k.namespace, l.namespace, m.namespace);
    CompareTransitive(k.name, l.name, m.name);
    CompareTransitive(k.version, l.version, m.version);
  }

  lemma RecordLeIsPreorder()
    ensures Preorder(RecordLe)
  {
    forall r, s ensures RecordLe(r, s) || RecordLe(s, r) {
      KeyLeTotal(r.key, s.key);
    }
    forall r, s, t | RecordLe(r, s) && RecordLe(s, t) ensures RecordLe(r, t) {
      KeyLeTransitive(r.key, s.key, t.key);
    }
  }

  /** The order of texts: a proper beginning is less, and else the first difference decides. */
  ghost predicate LessAt(a: string, b: string, n: nat) {
    n <= |a| && n < |b| && a[..n] == b[..n] && (n == |a| || a[n] < b[n])
  }

  ghost predicate Less(a: string, b: string) {
    exists n :: LessAt(a, b, n)
  }

  lemma {:induction false} CompareIff(a: string, b: string)
    ensures Compare(a, b) < 0 <==> Less(a, b)
  {
    if a == "" || b == "" {
      assert a == "" && b != "" ==> LessAt(a, b, 0);
    } else if a[0] != b[0] {
      assert a[0] < b[0] ==> LessAt(a, b, 0);
      if n: nat :| LessAt(a, b, n) {
        assert n > 0 ==> a[..n][0] == b[..n][0];
      }
    } else {
      CompareIff(a[1..], b[1..]);
      if n: nat :| LessAt(a[1..], b[1..], n) {
        assert a[..n + 1] == [a[0]] + a[1..][..n] && b[..n + 1] == [b[0]] + b[1..][..n];
        assert LessAt(a, b, n + 1);
      }
      if n: nat :| LessAt(a, b, n) {
        assert a[1..][..n - 1] == a[..n][1..] && b[1..][..n - 1] == b[..n][1..];
        assert LessAt(a[1..], b[1..], n - 1);
      }
    }
  }

  /** By namespace, then by name, then by version. */
  ghost predicate KeyLess(k: Key, l: Key) {
    || Less(k.namespace, l.namespace)
    || (k.namespace == l.namespace && Less(k.name, l.name))
    || (k.namespace == l.namespace && k.name == l.name && Less(k.version, l.version))
  }

  lemma KeyLeIff(k: Key, l: Key)
    ensures KeyLe(k, l) <==> !KeyLess(l, k)
  {
    CompareIff(l.namespace, k.namespace);
    CompareIff(l.name, k.name);
    CompareIff(l.version, k.version);
    CompareOpposite(k.namespace, l.namespace);
    CompareOpposite(k.name, l.name);
    CompareOpposite(k.version, l.version);
  }

  /** No record is listed after one with a greater key. */
  lemma ListedInOrder(q: Query, records: seq<Record>, i: nat, j: nat)
    requires i < j < |Listing(q, records)|
    ensures !KeyLess(Listing(q, records)[j].key, Listing(q, records)[i].key)
  {
    hide Matching;
    RecordLeIsPreorder();
    SortBySorts(Matching(q, records), RecordLe);
    var listing := Listing(q, records);
    KeyLeIff(listing[i].key, listing[j].key);
    assert RecordLe(listing[i], listing[j]);
  }

  function Listing(q: Query, records: seq<Record>): seq<Record> {
    SortBy(Matching(q, records), RecordLe)
  }

  // Pages.

  function Limit(q: Query): (limit: nat)
    ensures 1 <= limit <= 100
  {
    var asked := if q.limit.Some? then q.limit.value else 100;
    if asked < 1 then 1 else if asked > 100 then 100 else asked
  }

  function Offset(q: Query): nat {
    if q.offset.Some? then q.offset.value
    else
      var page := if q.page.Some? then q.page.value else 1;
      SaturatingMul(if page == 0 then 0 else page - 1, Limit(q))
  }

  function Min(a: nat, b: nat): nat {
    if a < b then a else b
  }

  /** The records from `offset` on, `limit` of them if there are as many. */
  function Slice<T>(s: seq<T>, offset: nat, limit: nat): seq<T> {
    s[Min(offset, |s|)..Min(offset + limit, |s|)]
  }

  /** `collection_next_link`. */
  function NextQuery(q: Query, limit: nat, offset: nat): Query {
    Query(q.search, None, q.namespace, q.collection, Some(limit), Some(offset))
  }

  function PageOf(q: Query, records: seq<Record>): Page {
    var listing, next := Listing(q, records), Offset(q) + Limit(q);
    Page(Slice(listing, Offset(q), Limit(q)), |listing|,
         if next <= USIZE_MAX && next < |listing| then Some(NextQuery(q, Limit(q), next)) else None)
  }

  lemma {:induction false} RetainAll<T(!new)>(s: seq<T>, f: T -> bool)
    requires forall x :: f(x)
    ensures Retain(s, f) == s
  {
    if s != [] {
      RetainAll(s[..|s| - 1], f);
      assert s == s[..|s| - 1] + [s[|s| - 1]];
    }
  }

  lemma SkipTake<T>(s: seq<T>, offset: nat, limit: nat)
    ensures var rest := s[Min(offset, |s|)..]; rest[..Min(limit, |rest|)] == Slice(s, offset, limit)
  {
  }

  method ListCollectionRecords(q: Query, catalog: seq<Record>) returns (page: Page)
    ensures page == PageOf(q, catalog)
  {
    hide Contains, ToLower, Retain, SortBy;
    ghost var inNamespace := (r: Record) => q.namespace.Some? ==> r.key.namespace == q.namespace.value;
    ghost var inCollection := (r: Record) => inNamespace(r)
      && (q.collection.Some? ==> r.key.name == q.collection.value);
    ghost var matching := (r: Record) => Matches(q, r);
    var records := catalog;
    if q.namespace.Some? {
      records := Retain(records, (r: Record) => r.key.namespace == q.namespace.value);
      RetainSame(catalog, (r: Record) => r.key.namespace == q.namespace.value, inNamespace);
    } else {
      RetainAll(catalog, inNamespace);
    }
    assert records == Retain(catalog, inNamespace);
    if q.collection.Some? {
      records := Retain(records, (r: Record) => r.key.name == q.collection.value);
      RetainTwice(catalog, inNamespace, (r: Record) => r.key.name == q.collection.value, inCollection);
    } else {
      RetainSame(catalog, inNamespace, inCollection);
    }
    assert records == Retain(catalog, inCollection);
    if q.search.Some? {
      var needle := ToLower(q.search.value);
      ghost var found := (r: Record) => Contains(ToLower(r.key.namespace + "." + r.key.name), needle);
      records := Retain(records, (r: Record) => Contains(ToLower(r.key.namespace + "." + r.key.name), needle));
      RetainTwice(catalog, inCollection, found, matching);
      RetainSame(Retain(catalog, inCollection), found,
        (r: Record) => Contains(ToLower(r.key.namespace + "." + r.key.name), needle));
    } else {
      RetainSame(catalog, inCollection, matching);
    }
    RetainSame(catalog, matching, (r: Record) => Matches(q, r));
    assert records == Matching(q, catalog);
    records := SortBy(records, RecordLe);
    var limit := if q.limit.Some? then q.limit.value else 100;
    limit := if limit < 1 then 1 else if limit > 100 then 100 else limit;
    var offset := Offset(q);
    var total := |records|;
    var next := None;
    if offset + limit <= USIZE_MAX && offset + limit < total {
      next := Some(NextQuery(q, limit, offset + limit));
    }
    SkipTake(records, offset, limit);
    records := records[Min(offset, |records|)..];
    records := records[..Min(limit, |records|)];
    page := Page(records, total, next);
  }

  // Pages by number.

  function Numbered(q: Query, page: nat): Query {
    q.(page := Some(page), offset := None)
  }

  lemma SameListing(q: Query, other: Query, records: seq<Record>)
    requires other == q.(page := other.page, offset := other.offset)
    ensures Listing(other, records) == Listing(q, records) && Limit(other) == Limit(q)
  {
    RetainSame(records, (r: Record) => Matches(q, r), (r: Record) => Matches(other, r));
  }

  /** What a client gets that asks for the pages 1 to `n` one after the other. */
  function FirstPages(q: Query, records: seq<Record>, n: nat): seq<Record> {
    if n == 0 then [] else FirstPages(q, records, n - 1) + PageOf(Numbered(q, n), records).data
  }

  /** The numbered pages lie side by side from the start of the listing. */
  lemma {:induction false} PagesTile(q: Query, records: seq<Record>, n: nat)
    requires |Listing(q, records)| <= VEC_MAX
    ensures FirstPages(q, records, n) == Listing(q, records)[..Min(n * Limit(q), |Listing(q, records)|)]
  {
    hide Listing, PageOf, Slice;
    if n > 0 {
      PagesTile(q, records, n - 1);
      NthPage(q, records, n);
      assert n * Limit(q) == (n - 1) * Limit(q) + Limit(q);
      SlicesTile(Listing(q, records), (n - 1) * Limit(q), Limit(q));
    }
  }

  lemma SlicesTile<T>(s: seq<T>, offset: nat, limit: nat)
    ensures s[..Min(offset, |s|)] + Slice(s, offset, limit) == s[..Min(offset + limit, |s|)]
  {
  }

  lemma NthPage(q: Query, records: seq<Record>, n: nat)
    requires |Listing(q, records)| <= VEC_MAX && n > 0
    ensures PageOf(Numbered(q, n), records).data == Slice(Listing(q, records), (n - 1) * Limit(q), Limit(q))
  {
    hide Listing;
    SameListing(q, Numbered(q, n), records);
    Saturated(Listing(q, records), (n - 1) * Limit(q), Limit(q));
  }

  /** No page and page 0 are page 1, and an offset takes the place of any page. */
  lemma OtherPages(q: Query, records: seq<Record>)
    requires |Listing(q, records)| <= VEC_MAX
    ensures PageOf(q.(page := None, offset := None), records) == PageOf(Numbered(q, 1), records)
    ensures PageOf(Numbered(q, 0), records) == PageOf(Numbered(q, 1), records)
    ensures q.offset.Some? ==> PageOf(q, records).data == Slice(Listing(q, records), q.offset.value, Limit(q))
  {
    hide Listing, Slice;
    SameListing(q, q.(page := None, offset := None), records);
    SameListing(q, Numbered(q, 0), records);
    SameListing(q, Numbered(q, 1), records);
  }

  /** Where the product of page and limit saturates the page is empty in any case. */
  lemma Saturated<T>(s: seq<T>, offset: nat, limit: nat)
    requires |s| <= VEC_MAX
    ensures Slice(s, if offset > USIZE_MAX then USIZE_MAX else offset, limit) == Slice(s, offset, limit)
  {
  }

  /** What a client gets that follows the next links from this query on. */
  function Walk(q: Query, catalog: seq<Record>): seq<Record>
    decreases |Listing(q, catalog)| - Offset(q)
  {
    var page := PageOf(q, catalog);
    if page.next.None? then page.data
    else
      NextListing(q, catalog);
      page.data + Walk(page.next.value, catalog)
  }

  lemma NextListing(q: Query, catalog: seq<Record>)
    ensures var next := NextQuery(q, Limit(q), Offset(q) + Limit(q));
            && Listing(next, catalog) == Listing(q, catalog) && Limit(next) == Limit(q)
            && Offset(next) == Offset(q) + Limit(q)
  {
    var next := NextQuery(q, Limit(q), Offset(q) + Limit(q));
    RetainSame(catalog, (r: Record) => Matches(q, r), (r: Record) => Matches(next, r));
  }

  /** No vector is longer than this. */
  const VEC_MAX: nat := 0x7FFF_FFFF_FFFF_FFFF

  /** From any offset on, following the links yields the rest of the listing. */
  lemma {:induction false} WalkYieldsTheRest(q: Query, catalog: seq<Record>)
    requires |Listing(q, catalog)| <= VEC_MAX
    ensures Walk(q, catalog) == Listing(q, catalog)[Min(Offset(q), |Listing(q, catalog)|)..]
    decreases |Listing(q, catalog)| - Offset(q)
  {
    var listing, page := Listing(q, catalog), PageOf(q, catalog);
    if page.next.Some? {
      NextListing(q, catalog);
      WalkYieldsTheRest(page.next.value, catalog);
      hide Listing;
      var m := Offset(q) + Limit(q);
      assert listing[Offset(q)..m] + listing[m..] == listing[Offset(q)..];
    }
  }

  /** From the first page on, it yields every matching record exactly as often as it is listed, in order. */
  lemma WalkVisitsAll(q: Query, catalog: seq<Record>)
    requires |catalog| <= VEC_MAX && Offset(q) == 0
    ensures Walk(q, catalog) == Listing(q, catalog)
    ensures multiset(Walk(q, catalog)) == multiset(Matching(q, catalog)) && Ordered(Walk(q, catalog), RecordLe)
    ensures forall r :: r in Walk(q, catalog) <==> r in catalog && Matches(q, r)
  {
    RecordLeIsPreorder();
    SortBySorts(Matching(q, catalog), RecordLe);
    WalkYieldsTheRest(q, catalog);
    var listing, matching := Listing(q, catalog), Matching(q, catalog);
    assert listing[0..] == listing;
    assert forall r :: r in listing <==> r in multiset(listing);
    assert forall r :: r in matching <==> r in multiset(matching);
  }

  /** Records of different keys are listed in one order, however the catalog is ordered. */
  lemma ListingIsCanonical(q: Query, catalog: seq<Record>, other: seq<Record>)
    requires multiset(catalog) == multiset(other)
    requires forall r, s :: r in catalog && s in catalog && r.key == s.key ==> r == s
    ensures Listing(q, catalog) == Listing(q, other)
  {
    RecordLeIsPreorder();
    SortBySorts(Matching(q, catalog), RecordLe);
    SortBySorts(Matching(q, other), RecordLe);
    RetainMultiset(catalog, other, (r: Record) => Matches(q, r));
    var a, b := Listing(q, catalog), Listing(q, other);
    forall r, s | r in a && s in a && RecordLe(r, s) && RecordLe(s, r) ensures r == s {
      KeyLeTotal(r.key, s.key);
      assert r in multiset(a) && s in multiset(a);
      assert r in Matching(q, catalog) && s in Matching(q, catalog);
    }
    OrderedIsUnique(a, b, RecordLe);
  }

  ghost function Count<T>(s: seq<T>, x: T): nat {
    multiset(s)[x]
  }

  lemma {:induction false} RetainCounts<T(!new)>(s: seq<T>, keep: T -> bool, x: T)
    ensures Count(Retain(s, keep), x) == if keep(x) then Count(s, x) else 0
  {
    if s != [] {
      RetainCounts(s[..|s| - 1], keep, x);
      assert s == s[..|s| - 1] + [s[|s| - 1]];
    }
  }

  lemma RetainMultiset<T(!new)>(s: seq<T>, t: seq<T>, keep: T -> bool)
    requires multiset(s) == multiset(t)
    ensures multiset(Retain(s, keep)) == multiset(Retain(t, keep))
  {
    forall x ensures multiset(Retain(s, keep))[x] == multiset(Retain(t, keep))[x] {
      RetainCounts(s, keep, x);
      RetainCounts(t, keep, x);
    }
  }

  /** Two ordered sequences of the same elements are equal if the order has no ties. */
  lemma {:induction false} OrderedIsUnique<T(!new)>(a: seq<T>, b: seq<T>, le: (T, T) -> bool)
    requires Ordered(a, le) && Ordered(b, le) && Preorder(le) && multiset(a) == multiset(b)
    requires forall x, y :: x in a && y in a && le(x, y) && le(y, x) ==> x == y
    ensures a == b
  {
    hide Ordered, Preorder;
    SameSize(a, b);
    if a != [] {
      var n := |a| - 1;
      LastAgrees(a, b, le);
      Front(a, le);
      Front(b, le);
      OrderedIsUnique(a[..n], b[..n], le);
      assert a == a[..n] + [a[n]];
      assert b == b[..n] + [b[n]];
    }
  }

  lemma Front<T(!new)>(s: seq<T>, le: (T, T) -> bool)
    requires Ordered(s, le) && s != []
    ensures Ordered(s[..|s| - 1], le) && multiset(s[..|s| - 1]) == multiset(s) - multiset{s[|s| - 1]}
    ensures forall x :: x in s[..|s| - 1] ==> x in s
  {
    assert s == s[..|s| - 1] + [s[|s| - 1]];
  }

  lemma LastAgrees<T(!new)>(a: seq<T>, b: seq<T>, le: (T, T) -> bool)
    requires Ordered(a, le) && Ordered(b, le) && Preorder(le) && multiset(a) == multiset(b) && |a| == |b| > 0
    requires forall x, y :: x in a && y in a && le(x, y) && le(y, x) ==> x == y
    ensures a[|a| - 1] == b[|b| - 1]
  {
    var n := |a| - 1;
    assert a[n] in multiset(b) && b[n] in multiset(a);
    var i :| 0 <= i < |b| && b[i] == a[n];
    var j :| 0 <= j < |a| && a[j] == b[n];
    LeLast(a, j, le);
    LeLast(b, i, le);
  }

  lemma LeLast<T(!new)>(s: seq<T>, i: nat, le: (T, T) -> bool)
    requires Ordered(s, le) && Preorder(le) && i < |s|
    ensures le(s[i], s[|s| - 1])
  {
    assert le(s[i], s[i]);
  }
}
