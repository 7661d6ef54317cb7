/**
 The record files on local disk as startup finds them: a tree that holds the committed records
 and leftover temporary files yields a complete listing (src/storage.rs).
 */
module RecordTree {
  import opened Wrappers
  import opened Sequences
  import opened Keys
  import opened Storage
  import opened Publication
  import opened PublicationInvariant
  import opened PublicationSafety
  import opened PublicationRuns

  /** There is a file with these bytes at this path. */
  predicate Has(nodes: seq<Node>, path: seq<string>, bytes: seq<byte>) {
    && nodes != []
    && (|| Has(nodes[1..], path, bytes)
        || match nodes[0]
           case File(name, data) => path == [name] && data == bytes
           case Dir(name, children) => |path| > 1 && path[0] == name && Has(children, path[1..], bytes))
  }

  /** No directory has two entries of one name. */
  predicate DistinctNames(nodes: seq<Node>) {
    nodes != [] ==>
      && (forall i :: 0 < i < |nodes| ==> nodes[i].name != nodes[0].name)
      && DistinctNames(nodes[1..])
      && (nodes[0].Dir? ==> DistinctNames(nodes[0].children))
  }

  /** The record file at this path holds `r`. */
  predicate RecordAt(nodes: seq<Node>, path: seq<string>, bytes: seq<byte>, r: Record,
                     parse: seq<byte> -> Option<Record>) {
    path != [] && Has(nodes, path, bytes) && IsJson(path[|path| - 1]) && parse(bytes) == Some(r)
  }

  ghost predicate InTree(nodes: seq<Node>, r: Record, parse: seq<byte> -> Option<Record>) {
    exists path, bytes :: RecordAt(nodes, path, bytes, r, parse)
  }

  ghost predicate OnePath(nodes: seq<Node>, r: Record, parse: seq<byte> -> Option<Record>) {
    forall p, b, q, c :: RecordAt(nodes, p, b, r, parse) && RecordAt(nodes, q, c, r, parse) ==> p == q
  }

  lemma {:induction false} FirstName(nodes: seq<Node>, path: seq<string>, bytes: seq<byte>)
    requires Has(nodes, path, bytes)
    ensures path != [] && exists i :: 0 <= i < |nodes| && nodes[i].name == path[0]
  {
    if Has(nodes[1..], path, bytes) {
      FirstName(nodes[1..], path, bytes);
      var i :| 0 <= i < |nodes[1..]| && nodes[1..][i].name == path[0];
      assert nodes[i + 1].name == path[0];
    } else {
      assert nodes[0].name == path[0];
    }
  }

  lemma InRest(nodes: seq<Node>, path: seq<string>, bytes: seq<byte>, r: Record, parse: seq<byte> -> Option<Record>)
    requires nodes != [] && RecordAt(nodes[1..], path, bytes, r, parse)
    ensures RecordAt(nodes, path, bytes, r, parse)
  {
  }

  lemma InChild(nodes: seq<Node>, path: seq<string>, bytes: seq<byte>, r: Record, parse: seq<byte> -> Option<Record>)
    requires nodes != [] && nodes[0].Dir? && RecordAt(nodes[0].children, path, bytes, r, parse)
    ensures RecordAt(nodes, [nodes[0].name] + path, bytes, r, parse)
  {
    assert ([nodes[0].name] + path)[1..] == path;
  }

  /** The scan yields exactly the records that record files hold. */
  lemma {:induction false} ScanIsExact(nodes: seq<Node>, r: Record, parse: seq<byte> -> Option<Record>)
    requires AllReadable(nodes, parse)
    ensures r in RecordsIn(nodes, parse) <==> InTree(nodes, r, parse)
  {
    if nodes != [] {
      ScanIsExact(nodes[1..], r, parse);
      if InTree(nodes[1..], r, parse) {
        var path, bytes :| RecordAt(nodes[1..], path, bytes, r, parse);
        InRest(nodes, path, bytes, r, parse);
      }
      match nodes[0] {
        case File(name, data) =>
          if IsJson(name) && parse(data) == Some(r) {
            assert RecordAt(nodes, [name], data, r, parse);
          }
        case Dir(name, children) =>
          ScanIsExact(children, r, parse);
          if InTree(children, r, parse) {
            var path, bytes :| RecordAt(children, path, bytes, r, parse);
            InChild(nodes, path, bytes, r, parse);
          }
      }
      if InTree(nodes, r, parse) {
        var path, bytes :| RecordAt(nodes, path, bytes, r, parse);
        InFirstOrRest(nodes, path, bytes, r, parse);
      }
    }
  }

  lemma InFirstOrRest(nodes: seq<Node>, path: seq<string>, bytes: seq<byte>, r: Record,
                      parse: seq<byte> -> Option<Record>)
    requires nodes != [] && RecordAt(nodes, path, bytes, r, parse)
    ensures || RecordAt(nodes[1..], path, bytes, r, parse)
            || (nodes[0].File? && IsJson(nodes[0].name) && parse(nodes[0].bytes) == Some(r))
            || (nodes[0].Dir? && RecordAt(nodes[0].children, path[1..], bytes, r, parse))
  {
  }

  /** A record that only one path holds is yielded once. */
  lemma {:induction false} ScanYieldsOnce(nodes: seq<Node>, r: Record, parse: seq<byte> -> Option<Record>)
    requires AllReadable(nodes, parse) && DistinctNames(nodes) && OnePath(nodes, r, parse)
    ensures RecordsIn(nodes, parse)[r] <= 1
  {
    if nodes != [] {
      var rest, name := nodes[1..], nodes[0].name;
      forall p, b, q, c | RecordAt(rest, p, b, r, parse) && RecordAt(rest, q, c, r, parse) ensures p == q {
        InRest(nodes, p, b, r, parse);
        InRest(nodes, q, c, r, parse);
      }
      ScanYieldsOnce(rest, r, parse);
      if nodes[0].Dir? {
        var children := nodes[0].children;
        forall p, b, q, c | RecordAt(children, p, b, r, parse) && RecordAt(children, q, c, r, parse) ensures p == q {
          InChild(nodes, p, b, r, parse);
          InChild(nodes, q, c, r, parse);
          assert p == ([name] + p)[1..] && q == ([name] + q)[1..];
        }
        ScanYieldsOnce(children, r, parse);
      }
      if r in RecordsIn(rest, parse) {
        NotInFirst(nodes, r, parse);
      }
    }
  }

  lemma NotInFirst(nodes: seq<Node>, r: Record, parse: seq<byte> -> Option<Record>)
    requires AllReadable(nodes, parse) && DistinctNames(nodes) && OnePath(nodes, r, parse)
    requires nodes != [] && r in RecordsIn(nodes[1..], parse)
    ensures RecordsIn(nodes, parse)[r] == RecordsIn(nodes[1..], parse)[r]
  {
    ScanIsExact(nodes[1..], r, parse);
    var q, c :| RecordAt(nodes[1..], q, c, r, parse);
    FirstName(nodes[1..], q, c);
    InRest(nodes, q, c, r, parse);
    assert q[0] != nodes[0].name;
    hide OnePath, RecordAt, DistinctNames;
    match nodes[0] {
      case File(name, data) =>
        if IsJson(name) && parse(data) == Some(r) {
          FileHere(nodes, r, parse);
          OnlyPath(nodes, r, parse, [name], data, q, c);
        }
      case Dir(name, children) =>
        ScanIsExact(children, r, parse);
        if r in RecordsIn(children, parse) {
          var p, b :| RecordAt(children, p, b, r, parse);
          InChild(nodes, p, b, r, parse);
          OnlyPath(nodes, r, parse, [name] + p, b, q, c);
        }
    }
  }

  lemma FileHere(nodes: seq<Node>, r: Record, parse: seq<byte> -> Option<Record>)
    requires nodes != [] && nodes[0].File? && IsJson(nodes[0].name) && parse(nodes[0].bytes) == Some(r)
    ensures RecordAt(nodes, [nodes[0].name], nodes[0].bytes, r, parse)
  {
  }

  lemma OnlyPath(nodes: seq<Node>, r: Record, parse: seq<byte> -> Option<Record>,
                 p: seq<string>, b: seq<byte>, q: seq<string>, c: seq<byte>)
    requires OnePath(nodes, r, parse) && RecordAt(nodes, p, b, r, parse) && RecordAt(nodes, q, c, r, parse)
    ensures p == q
  {
  }

  /** The directory `records` holds exactly these records, and temporary files. */
  ghost predicate TreeHolds(root: seq<Node>, records: map<Place, Record>, parse: seq<byte> -> Option<Record>) {
    && DistinctNames(root)
    && (forall p :: p in records ==> p == RecordPath(records[p].key) && records[p].key.version != "")
    && (forall p :: p in records ==> exists bytes :: Has(root, p[1..], bytes))
    && (forall path, bytes :: path != [] && Has(root, path, bytes) ==>
          || IsTemporary(path[|path| - 1])
          || (["records"] + path in records && |bytes| <= MAX_LEGACY_RECORD_BYTES
              && parse(bytes) == Some(records[["records"] + path])))
  }

  lemma {:induction false} HoldersAreReadable(nodes: seq<Node>, parse: seq<byte> -> Option<Record>)
    requires forall path, bytes :: path != [] && Has(nodes, path, bytes) && IsJson(path[|path| - 1]) ==>
              Readable(bytes, parse)
    ensures AllReadable(nodes, parse)
  {
    if nodes != [] {
      HoldersAreReadable(nodes[1..], parse);
      match nodes[0] {
        case File(name, bytes) => assert Has(nodes, [name], bytes);
        case Dir(name, children) =>
          forall path, bytes | path != [] && Has(children, path, bytes) && IsJson(path[|path| - 1])
            ensures Readable(bytes, parse)
          {
            assert ([name] + path)[1..] == path;
            assert Has(nodes, [name] + path, bytes);
          }
          HoldersAreReadable(children, parse);
      }
    }
  }

  /** A record file of such a tree holds the record of its path. */
  lemma RecordOfFile(root: seq<Node>, records: map<Place, Record>, parse: seq<byte> -> Option<Record>,
                     path: seq<string>, bytes: seq<byte>)
    requires TreeHolds(root, records, parse) && path != [] && Has(root, path, bytes) && IsJson(path[|path| - 1])
    ensures ["records"] + path in records && Readable(bytes, parse) && parse(bytes) == Some(records[["records"] + path])
  {
    OnlyRecordsAreJson("0", path[|path| - 1]);
  }

  lemma FileOfRecord(root: seq<Node>, records: map<Place, Record>, parse: seq<byte> -> Option<Record>, p: Place)
    requires TreeHolds(root, records, parse) && p in records
    ensures InTree(root, records[p], parse)
  {
    var k := records[p].key;
    PathShape(k);
    OnlyRecordsAreJson(k.version, "");
    var bytes :| Has(root, p[1..], bytes);
    assert ["records"] + p[1..] == p && p[1..][|p| - 2] == k.version + ".json";
    RecordOfFile(root, records, parse, p[1..], bytes);
    assert RecordAt(root, p[1..], bytes, records[p], parse);
  }

  /** Such a tree is readable, and the scan yields each committed record once and nothing else. */
  lemma TreeYieldsRecords(root: seq<Node>, records: map<Place, Record>, parse: seq<byte> -> Option<Record>)
    requires TreeHolds(root, records, parse)
    ensures AllReadable(root, parse)
    ensures forall r :: r in RecordsIn(root, parse) <==> exists p :: p in records && records[p] == r
    ensures forall r :: RecordsIn(root, parse)[r] <= 1
  {
    forall path, bytes | path != [] && Has(root, path, bytes) && IsJson(path[|path| - 1])
      ensures Readable(bytes, parse)
    {
      RecordOfFile(root, records, parse, path, bytes);
    }
    HoldersAreReadable(root, parse);
    forall r ensures r in RecordsIn(root, parse) <==> exists p :: p in records && records[p] == r {
      ScanIsExact(root, r, parse);
      if InTree(root, r, parse) {
        var path, bytes :| RecordAt(root, path, bytes, r, parse);
        RecordOfFile(root, records, parse, path, bytes);
      }
      if exists p :: p in records && records[p] == r {
        var p :| p in records && records[p] == r;
        FileOfRecord(root, records, parse, p);
      }
    }
    forall r ensures RecordsIn(root, parse)[r] <= 1 {
      PathIsUnique(root, records, parse, r);
      ScanYieldsOnce(root, r, parse);
    }
  }

  lemma PathIsUnique(root: seq<Node>, records: map<Place, Record>, parse: seq<byte> -> Option<Record>, r: Record)
    requires TreeHolds(root, records, parse)
    ensures OnePath(root, r, parse)
  {
    forall p, b, q, c | RecordAt(root, p, b, r, parse) && RecordAt(root, q, c, r, parse) ensures p == q {
      RecordOfFile(root, records, parse, p, b);
      RecordOfFile(root, records, parse, q, c);
      assert p == (["records"] + p)[1..] && q == (["records"] + q)[1..];
    }
  }

  /** So what `read_records` returns for it is a complete listing, in whatever order. */
  lemma TreeIsListed(s: State, root: seq<Node>, parse: seq<byte> -> Option<Record>, listing: seq<Record>)
    requires s.backend == LOCAL && TreeHolds(root, s.disk.records, parse)
    requires AllReadable(root, parse) && multiset(listing) == RecordsIn(root, parse)
    ensures Lists(listing, s)
  {
    TreeYieldsRecords(root, s.disk.records, parse);
    hide AllReadable, RecordsIn, RecordPath;
    assert forall r :: r in listing <==> r in multiset(listing);
    forall i, j | 0 <= i < j < |listing| ensures listing[i].key != listing[j].key {
      if listing[i].key == listing[j].key {
        assert listing[i] in listing && listing[j] in listing;
        TwiceCounts(listing, i, j);
      }
    }
  }

  // Every state that local disk reaches is such a tree.

  /** The tree with one more file, and the directories above it. */
  function Insert(nodes: seq<Node>, path: seq<string>, bytes: seq<byte>): seq<Node>
    requires path != []
    decreases path, nodes
  {
    if nodes == [] then
      [if |path| == 1 then File(path[0], bytes) else Dir(path[0], Insert([], path[1..], bytes))]
    else if nodes[0].Dir? && nodes[0].name == path[0] && |path| > 1 then
      [Dir(path[0], Insert(nodes[0].children, path[1..], bytes))] + nodes[1..]
    else
      [nodes[0]] + Insert(nodes[1..], path, bytes)
  }

  lemma {:induction false} InsertHas(nodes: seq<Node>, path: seq<string>, bytes: seq<byte>, q: seq<string>,
                                     c: seq<byte>)
    requires path != []
    ensures Has(Insert(nodes, path, bytes), q, c) <==> Has(nodes, q, c) || (q == path && c == bytes)
    decreases path, nodes
  {
    var more := Insert(nodes, path, bytes);
    if |q| > 1 && |path| > 1 {
      assert q == [q[0]] + q[1..] && path == [path[0]] + path[1..];
    }
    if nodes == [] {
      if |path| > 1 && |q| > 1 {
        InsertHas([], path[1..], bytes, q[1..], c);
      }
    } else if nodes[0].Dir? && nodes[0].name == path[0] && |path| > 1 {
      assert more[1..] == nodes[1..];
      if |q| > 1 {
        InsertHas(nodes[0].children, path[1..], bytes, q[1..], c);
      }
    } else {
      assert more[1..] == Insert(nodes[1..], path, bytes);
      InsertHas(nodes[1..], path, bytes, q, c);
    }
  }

  predicate NoEmptyDirs(nodes: seq<Node>) {
    nodes != [] ==>
      NoEmptyDirs(nodes[1..]) && (nodes[0].Dir? ==> nodes[0].children != [] && NoEmptyDirs(nodes[0].children))
  }

  lemma {:induction false} SomeFile(nodes: seq<Node>) returns (q: seq<string>, c: seq<byte>)
    requires nodes != [] && NoEmptyDirs(nodes)
    ensures Has(nodes, q, c) && q != [] && q[0] == nodes[0].name
  {
    match nodes[0] {
      case File(name, bytes) => q, c := [name], bytes;
      case Dir(name, children) =>
        q, c := SomeFile(children);
        q := [name] + q;
        assert q[1..] == ([name] + q[1..])[1..];
    }
  }

  /** No file is above, at or below this path. */
  ghost predicate Free(nodes: seq<Node>, path: seq<string>) {
    forall q, c :: Has(nodes, q, c) ==> !IsPrefix(q, path) && !IsPrefix(path, q)
  }

  lemma FreeFirst(nodes: seq<Node>, path: seq<string>)
    requires nodes != [] && path != [] && NoEmptyDirs(nodes) && Free(nodes, path)
    ensures Free(nodes[1..], path)
    ensures nodes[0].name == path[0] ==> nodes[0].Dir? && |path| > 1
    ensures nodes[0].Dir? && nodes[0].name == path[0] ==> Free(nodes[0].children, path[1..])
  {
    forall q, c | Has(nodes[1..], q, c) ensures !IsPrefix(q, path) && !IsPrefix(path, q) {
      assert Has(nodes, q, c);
    }
    if nodes[0].name == path[0] {
      match nodes[0] {
        case File(name, bytes) => assert Has(nodes, [name], bytes) && IsPrefix([name], path);
        case Dir(name, children) =>
          var q, c := SomeFile(nodes);
          forall q, c | Has(children, q, c) ensures !IsPrefix(q, path[1..]) && !IsPrefix(path[1..], q) {
            BelowName(nodes, path, q, c);
          }
      }
    }
  }

  lemma SamePrefix(name: string, a: seq<string>, b: seq<string>)
    ensures IsPrefix([name] + a, [name] + b) <==> IsPrefix(a, b)
  {
    if |a| <= |b| {
      assert ([name] + b)[..|a| + 1] == [name] + b[..|a|];
      assert ([name] + a)[1..] == a && ([name] + b[..|a|])[1..] == b[..|a|];
    }
  }

  lemma BelowName(nodes: seq<Node>, path: seq<string>, q: seq<string>, c: seq<byte>)
    requires nodes != [] && nodes[0].Dir? && path != [] && nodes[0].name == path[0] && Free(nodes, path)
    requires Has(nodes[0].children, q, c)
    ensures !IsPrefix(q, path[1..]) && !IsPrefix(path[1..], q)
  {
    FirstName(nodes[0].children, q, c);
    var x := [nodes[0].name] + q;
    assert x[1..] == q && x[0] == nodes[0].name && |x| > 1;
    assert Has(nodes, x, c);
    assert path == [path[0]] + path[1..];
    SamePrefix(path[0], q, path[1..]);
    SamePrefix(path[0], path[1..], q);
  }

  predicate NoneNamed(nodes: seq<Node>, name: string) {
    forall i :: 0 <= i < |nodes| ==> nodes[i].name != name
  }

  lemma {:induction false} InsertDistinct(nodes: seq<Node>, path: seq<string>, bytes: seq<byte>, other: string)
    requires path != [] && DistinctNames(nodes) && NoEmptyDirs(nodes) && Free(nodes, path)
    ensures DistinctNames(Insert(nodes, path, bytes)) && NoEmptyDirs(Insert(nodes, path, bytes))
    ensures Insert(nodes, path, bytes) != []
    ensures other != path[0] && NoneNamed(nodes, other) ==> NoneNamed(Insert(nodes, path, bytes), other)
    decreases path, nodes
  {
    var more := Insert(nodes, path, bytes);
    if nodes == [] {
      if |path| > 1 {
        InsertDistinct([], path[1..], bytes, other);
      }
    } else {
      FreeFirst(nodes, path);
      if nodes[0].Dir? && nodes[0].name == path[0] && |path| > 1 {
        InsertDistinct(nodes[0].children, path[1..], bytes, other);
        assert more[1..] == nodes[1..];
      } else {
        InsertDistinct(nodes[1..], path, bytes, other);
        InsertDistinct(nodes[1..], path, bytes, nodes[0].name);
        assert more[1..] == Insert(nodes[1..], path, bytes);
      }
    }
  }

  /** The tree has one file for each of these records and no other file. */
  ghost predicate Exactly(root: seq<Node>, records: map<Place, Record>, encode: Record -> seq<byte>) {
    && DistinctNames(root) && NoEmptyDirs(root)
    && forall q, c :: Has(root, q, c) <==>
         q != [] && ["records"] + q in records && c == encode(records[["records"] + q])
  }

  /** Each place is that of its record, and none is a directory above another one. */
  ghost predicate Nested(records: map<Place, Record>) {
    && (forall p :: p in records ==> p == RecordPath(records[p].key) && records[p].key.version != "")
    && (forall p, q :: p in records && q in records && p != q ==> !IsPrefix(p, q))
  }

  lemma InRecords(k: Key)
    ensures |RecordPath(k)| > 1 && RecordPath(k) == ["records"] + RecordPath(k)[1..]
  {
    PathShape(k);
  }

  lemma AddFile(root: seq<Node>, records: map<Place, Record>, encode: Record -> seq<byte>, p: Place)
    returns (more: seq<Node>)
    requires Nested(records) && p in records && Exactly(root, records - {p}, encode)
    ensures Exactly(more, records, encode)
  {
    InRecords(records[p].key);
    var path, bytes := p[1..], encode(records[p]);
    forall q, c | Has(root, q, c) ensures !IsPrefix(q, path) && !IsPrefix(path, q) {
      var other := ["records"] + q;
      assert other in records && other != p;
      assert p == ["records"] + path;
      SamePrefix("records", q, path);
      SamePrefix("records", path, q);
    }
    InsertDistinct(root, path, bytes, "");
    more := Insert(root, path, bytes);
    forall q, c
      ensures Has(more, q, c) <==> q != [] && ["records"] + q in records && c == encode(records[["records"] + q])
    {
      InsertHas(root, path, bytes, q, c);
      assert ["records"] + q == p <==> q == path by {
        assert (["records"] + q)[1..] == q;
      }
    }
  }

  lemma {:induction false} TreeOf(records: map<Place, Record>, encode: Record -> seq<byte>) returns (root: seq<Node>)
    requires Nested(records)
    ensures Exactly(root, records, encode)
    decreases records.Keys
  {
    if records == map[] {
      root := [];
    } else {
      var p :| p in records;
      root := TreeOf(records - {p}, encode);
      root := AddFile(root, records, encode, p);
    }
  }

  /**
   Each state that local disk reaches is a file system: some tree of directories and files holds
   exactly its records, provided that they can be written and read back.
   */
  lemma StatesAreTrees(hash: seq<byte> -> string, s: State, encode: Record -> seq<byte>,
                       parse: seq<byte> -> Option<Record>)
    requires Reachable(hash, LOCAL, s)
    requires forall p :: p in s.disk.records ==>
               var bytes := encode(s.disk.records[p]);
               |bytes| <= MAX_LEGACY_RECORD_BYTES && parse(bytes) == Some(s.disk.records[p])
    ensures exists root :: TreeHolds(root, s.disk.records, parse)
  {
    hide Reachable, DistinctNames, RecordPath;
    IsNested(hash, s);
    var root := TreeOf(s.disk.records, encode);
    forall p | p in s.disk.records ensures |p| > 1 && p == ["records"] + p[1..] {
      InRecords(s.disk.records[p].key);
    }
    forall p | p in s.disk.records ensures exists bytes :: Has(root, p[1..], bytes) {
      assert Has(root, p[1..], encode(s.disk.records[p]));
    }
    assert TreeHolds(root, s.disk.records, parse);
  }

  lemma IsNested(hash: seq<byte> -> string, s: State)
    requires Reachable(hash, LOCAL, s)
    ensures Nested(s.disk.records)
  {
    hide Inv, Run, RecordPath;
    ReachableInv(hash, LOCAL, s);
    BackendStays(hash, LOCAL, s);
    RecordsAreValid(hash, s);
    forall p, q | p in s.disk.records && q in s.disk.records && p != q ensures !IsPrefix(p, q) {
      PathsAreFiles(hash, s, p, q);
    }
    forall p | p in s.disk.records ensures p == RecordPath(s.disk.records[p].key) {
      CommittedArtifact(hash, s, p);
      WinnerRaces(hash, s, p);
    }
  }
}
