/**
 The checks on an uploaded archive (src/galaxy.rs). Gzip, tar, JSON and SHA-256 are
 parameters; the loops over entries, extension records and declared files are here.
 */
module Archive {
  import opened Wrappers
  import opened Sequences
  import opened Paths
  import opened Keys

  const MAX_ENTRIES: nat := 10_000
  const MAX_FILE: nat := 64 * 1024 * 1024
  const MAX_TOTAL: nat := 256 * 1024 * 1024
  const MAX_STREAM: nat := 272 * 1024 * 1024
  const MAX_EXTENSION: nat := 64 * 1024
  const MAX_MANIFEST: nat := 1024 * 1024
  const MAX_FILES_LIST: nat := 4 * 1024 * 1024

  const MANIFEST := "MANIFEST.json"
  const FILES := "FILES.json"

  // The scan of extension records before anything is unpacked.

  const NEWLINE: byte := 10
  const SPACE: byte := 32

  /** `size=` in ASCII. */
  const SIZE_KEY: seq<byte> := [115, 105, 122, 101, 61]

  function AfterSpace(line: seq<byte>): Option<seq<byte>> {
    if line == [] then None
    else if line[0] == SPACE then Some(line[1..])
    else AfterSpace(line[1..])
  }

  predicate IsSizeLine(line: seq<byte>) {
    var rest := AfterSpace(line);
    rest.Some? && IsPrefix(SIZE_KEY, rest.value)
  }

  predicate HasSizeLine(data: seq<byte>) {
    exists line :: line in Split(data, NEWLINE) && IsSizeLine(line)
  }

  /** One extended-header record of the pax utility (IEEE Std 1003.1): `length key=value\n`. */
  datatype Pax = Pax(length: seq<byte>, key: seq<byte>, value: seq<byte>)

  function PaxBytes(p: Pax): seq<byte> {
    p.length + [SPACE] + p.key + [61] + p.value + [NEWLINE]
  }

  predicate IsDecimal(digits: seq<byte>) {
    forall c :: c in digits ==> 48 <= c <= 57
  }

  function Decimal(digits: seq<byte>): int {
    if digits == [] then 0 else 10 * Decimal(digits[..|digits| - 1]) + digits[|digits| - 1] - 48
  }

  /** All that the scan relies on. */
  predicate Shaped(p: Pax) {
    IsDecimal(p.length) && NEWLINE !in p.key && 61 !in p.key
  }

  /** The length counts the whole record, with itself and the line end. */
  predicate WellFormed(p: Pax) {
    Shaped(p) && p.length != [] && Decimal(p.length) == |PaxBytes(p)|
  }

  /** A whole extension: records one after another. */
  function PaxData(records: seq<Pax>): seq<byte> {
    if records == [] then [] else PaxBytes(records[0]) + PaxData(records[1..])
  }

  /** `size`, as a key. */
  const SIZE: seq<byte> := [115, 105, 122, 101]

  lemma {:induction false} AfterSpaceOf(digits: seq<byte>, rest: seq<byte>)
    requires SPACE !in digits
    ensures AfterSpace(digits + [SPACE] + rest) == Some(rest)
  {
    var line := digits + [SPACE] + rest;
    if digits == [] {
      assert line[1..] == rest;
    } else {
      AfterSpaceOf(digits[1..], rest);
      assert line[1..] == digits[1..] + [SPACE] + rest;
    }
  }

  lemma {:induction false} FirstLine(head: seq<byte>, tail: seq<byte>)
    requires NEWLINE !in head
    ensures Split(head + tail, NEWLINE)[0] == head + Split(tail, NEWLINE)[0]
    ensures Split(head + tail, NEWLINE)[1..] == Split(tail, NEWLINE)[1..]
  {
    if head == [] {
      assert head + tail == tail;
    } else {
      FirstLine(head[1..], tail);
      assert (head + tail)[1..] == head[1..] + tail;
    }
  }

  /** A record without its line end. */
  function PaxBody(p: Pax): seq<byte> {
    p.length + [SPACE] + p.key + [61] + p.value
  }

  lemma SizePrefix(key: seq<byte>, rest: seq<byte>)
    requires 61 !in key
    ensures IsPrefix(SIZE_KEY, key + [61] + rest) <==> key == SIZE
  {
    var s := key + [61] + rest;
    assert s[|key|] == 61 && forall i :: 0 <= i < |key| ==> s[i] == key[i] != 61;
    if IsPrefix(SIZE_KEY, s) {
      assert forall i :: 0 <= i < 5 ==> s[i] == SIZE_KEY[i];
      assert s[4] == 61 && forall i :: 0 <= i < 4 ==> s[i] == SIZE[i] != 61;
      assert |key| == 4;
      assert key == SIZE;
    }
  }

  /** The first line of a record is a size line exactly if the key is `size`; the others are its value's. */
  lemma LinesOfRecord(p: Pax)
    requires Shaped(p)
    ensures var lines := Split(PaxBody(p), NEWLINE);
            (IsSizeLine(lines[0]) <==> p.key == SIZE) && lines[1..] == Split(p.value, NEWLINE)[1..]
  {
    var head, first := p.length + [SPACE] + p.key + [61], Split(p.value, NEWLINE)[0];
    FirstLine(head, p.value);
    assert PaxBody(p) == head + p.value;
    assert SPACE !in p.length;
    AfterSpaceOf(p.length, p.key + [61] + first);
    assert head + first == p.length + [SPACE] + (p.key + [61] + first);
    SizePrefix(p.key, first);
  }

  /** Some line of the value after its first one looks like a `size` record. */
  predicate HidesSizeLine(value: seq<byte>) {
    exists line :: line in Split(value, NEWLINE)[1..] && IsSizeLine(line)
  }

  lemma RecordIsCaughtIff(p: Pax)
    requires Shaped(p)
    ensures HasSizeLine(PaxBody(p)) <==> p.key == SIZE || HidesSizeLine(p.value)
  {
    LinesOfRecord(p);
    var lines := Split(PaxBody(p), NEWLINE);
    hide IsSizeLine, Split;
    assert lines == [lines[0]] + lines[1..];
  }

  lemma ConcatIsCaughtIff(body: seq<byte>, rest: seq<byte>)
    ensures HasSizeLine(body + [NEWLINE] + rest) <==> HasSizeLine(body) || HasSizeLine(rest)
  {
    SplitConcat(body, NEWLINE, rest);
    hide IsSizeLine, Split;
  }

  /**
   The scan catches an extension exactly if one of its records has the key `size`, or a value
   with a line, not the first, that looks like such a record. It looks at lines, not at records.
   */
  lemma {:induction false} CaughtIff(records: seq<Pax>)
    requires forall p :: p in records ==> Shaped(p)
    ensures HasSizeLine(PaxData(records)) <==> exists p :: p in records && (p.key == SIZE || HidesSizeLine(p.value))
  {
    if records != [] {
      var p, rest := records[0], PaxData(records[1..]);
      CaughtIff(records[1..]);
      RecordIsCaughtIff(p);
      ConcatIsCaughtIff(PaxBody(p), rest);
      assert PaxData(records) == PaxBody(p) + [NEWLINE] + rest;
      hide HasSizeLine, HidesSizeLine;
      assert records == [p] + records[1..];
    }
  }

  /**
   In particular any extension that holds a `size` record is caught, even after records whose
   values contain line ends.
   */
  lemma SizeOverrideIsCaught(records: seq<Pax>, i: nat)
    requires forall p :: p in records ==> Shaped(p)
    requires i < |records| && records[i].key == SIZE
    ensures HasSizeLine(PaxData(records))
  {
    CaughtIff(records);
  }

  /** And so is the comment of 13 bytes whose value is a line end and ` size=`. */
  lemma CommentMayBeCaught()
    ensures exists p :: WellFormed(p) && p.key != SIZE && HasSizeLine(PaxData([p]))
  {
    var p := Pax([49, 51], [99], [NEWLINE, SPACE] + SIZE_KEY);
    assert Decimal(p.length) == 13 == |PaxBytes(p)| by {
      assert p.length[..1] == [49] && p.length[..1][..0] == [];
    }
    SecondLineCounts();
    CaughtIff([p]);
    hide HasSizeLine, HidesSizeLine, PaxData, PaxBytes;
    assert p in [p];
  }

  lemma SecondLineCounts()
    ensures HidesSizeLine([NEWLINE, SPACE] + SIZE_KEY)
  {
    var line := [] + [SPACE] + SIZE_KEY;
    AfterSpaceOf([], SIZE_KEY);
    FirstLine(line, []);
    SplitConcat([], NEWLINE, line);
    assert IsSizeLine(line);
    hide IsSizeLine;
    assert line + [] == line && [] + [NEWLINE] + line == [NEWLINE, SPACE] + SIZE_KEY;
    assert Split([NEWLINE, SPACE] + SIZE_KEY, NEWLINE) == Split([], NEWLINE) + Split(line, NEWLINE);
    assert Split([NEWLINE, SPACE] + SIZE_KEY, NEWLINE)[1..][0] == line;
  }

  datatype RawKind = RawFile | RawDir | PaxHeader | LongName | RawOther

  datatype RawEntry = RawEntry(kind: RawKind, data: seq<byte>)

  predicate RawAllowed(e: RawEntry) {
    match e.kind
    case PaxHeader => |e.data| <= MAX_EXTENSION && !HasSizeLine(e.data)
    case LongName => |e.data| <= MAX_EXTENSION
    case RawOther => false
    case _ => |e.data| <= MAX_FILE
  }

  function RawTotal(entries: seq<RawEntry>): nat {
    if entries == [] then 0
    else
      var last := entries[|entries| - 1];
      RawTotal(entries[..|entries| - 1]) + if last.kind in {RawFile, RawDir} then |last.data| else 0
  }

  lemma {:induction false} RawTotalGrows(entries: seq<RawEntry>, i: nat)
    requires i <= |entries|
    ensures RawTotal(entries[..i]) <= RawTotal(entries)
    decreases |entries| - i
  {
    if i == |entries| {
      assert entries[..i] == entries;
    } else {
      assert entries[..i + 1][..i] == entries[..i];
      RawTotalGrows(entries, i + 1);
    }
  }

  /** `preflight_archive`. `streamSize` is the whole decompressed size. */
  method Preflight(entries: seq<RawEntry>, streamSize: nat) returns (ok: bool)
    ensures ok <==> |entries| <= MAX_ENTRIES && (forall e :: e in entries ==> RawAllowed(e))
                    && RawTotal(entries) <= MAX_TOTAL && streamSize <= MAX_STREAM
  {
    var count, totalSize := 0, 0;
    for i := 0 to |entries|
      invariant count == i <= MAX_ENTRIES
      invariant forall j :: 0 <= j < i ==> RawAllowed(entries[j])
      invariant totalSize == RawTotal(entries[..i]) <= MAX_TOTAL
    {
      var e := entries[i];
      assert e in entries && entries[..i + 1][..i] == entries[..i];
      RawTotalGrows(entries, i + 1);
      count := count + 1;
      if count > MAX_ENTRIES {
        return false;
      }
      if e.kind in {PaxHeader, LongName} {
        if |e.data| > MAX_EXTENSION {
          return false;
        }
        if e.kind == PaxHeader && HasSizeLine(e.data) {
          return false;
        }
      } else {
        if e.kind !in {RawFile, RawDir} {
          return false;
        }
        if |e.data| > MAX_FILE || totalSize + |e.data| > MAX_TOTAL {
          return false;
        }
        totalSize := totalSize + |e.data|;
      }
    }
    assert entries[..|entries|] == entries;
    return streamSize <= MAX_STREAM;
  }

  // The archive itself.

  datatype Kind = Regular | Directory | Special

  /** An entry of the archive. Its path is any bytes but is compared as a text. */
  datatype Entry = Entry(kind: Kind, path: seq<byte>, data: seq<byte>)

  datatype Meta = Meta(key: Key, dependenciesAreObject: bool)

  /** One item of FILES.json. A name or checksum may be missing or not a text. */
  datatype Declared = Declared(isFile: bool, name: Option<string>, checksum: Option<string>)

  /** What MANIFEST.json says: the checksum of FILES.json and the collection's metadata. */
  datatype Manifest = Manifest(filesChecksum: Option<string>, meta: Option<Meta>)

  /** SHA-256 in hexadecimal, `to_string_lossy`, and the JSON readings of the two metadata files. */
  datatype Tools = Tools(
    hash: seq<byte> -> string,
    text: seq<byte> -> string,
    files: seq<byte> -> Option<seq<Declared>>,
    manifest: seq<byte> -> Option<Manifest>)

  const SLASH: byte := 47
  const DOT: seq<byte> := [46]
  const DOTDOT: seq<byte> := [46, 46]

  predicate SafePath(path: seq<byte>) {
    !IsPrefix([SLASH], path) && forall part :: part in Split(path, SLASH) ==> part != DOTDOT
  }

  /** Unpacked below a directory, no step on the way to this path is above that directory. */
  ghost predicate StaysBelow(path: seq<byte>) {
    && (path == [] || path[0] != SLASH)
    && forall n :: 0 <= n <= |Split(path, SLASH)| ==> Walk(Split(path, SLASH)[..n], DOTDOT, {[], DOT}).Some?
  }

  /** Where that is: the path without its empty components and single dots. */
  function Location(path: seq<byte>): Option<seq<seq<byte>>> {
    Walk(Split(path, SLASH), DOTDOT, {[], DOT})
  }

  lemma SafeStaysBelow(path: seq<byte>)
    requires SafePath(path)
    ensures StaysBelow(path) && Location(path) == Some(Named(Split(path, SLASH), {[], DOT}))
  {
    var parts := Split(path, SLASH);
    OnlyDown(parts, DOTDOT, {[], DOT});
    forall n | 0 <= n <= |parts| ensures Walk(parts[..n], DOTDOT, {[], DOT}).Some? {
      NeverAbove(parts, n, DOTDOT, {[], DOT});
    }
    SafePathIff(path);
  }

  /** Nothing else is refused: a refused path begins with a slash or has two dots for a component. */
  lemma SafePathIff(path: seq<byte>)
    ensures SafePath(path) <==> (path == [] || path[0] != SLASH) && !HasPart(path, SLASH, DOTDOT)
  {
    PartIff(path, SLASH, DOTDOT);
    assert path != [] ==> (IsPrefix([SLASH], path) <==> path[..1] == [SLASH]);
  }

  /** `trim_start_matches("./")`. */
  function Normalized(path: string): string {
    if IsPrefix("./", path) then Normalized(path[2..]) else path
  }

  function Dots(n: nat): string {
    if n == 0 then "" else "./" + Dots(n - 1)
  }

  ghost predicate Trims(path: string, n: nat, rest: string) {
    path == Dots(n) + rest && !IsPrefix("./", rest)
  }

  /** It takes away as many leading `./` as there are, and nothing else. */
  lemma NormalizedIff(path: string, rest: string)
    ensures Normalized(path) == rest <==> exists n :: Trims(path, n, rest)
  {
    var n := TrimmedDots(path);
    if m: nat :| Trims(path, m, rest) {
      TrimIsUnique(path, m, rest);
    }
  }

  lemma {:induction false} TrimmedDots(path: string) returns (n: nat)
    ensures Trims(path, n, Normalized(path))
  {
    n := 0;
    if IsPrefix("./", path) {
      n := TrimmedDots(path[2..]);
      assert path == "./" + path[2..];
      n := n + 1;
    }
  }

  lemma {:induction false} TrimIsUnique(path: string, n: nat, rest: string)
    requires Trims(path, n, rest)
    ensures Normalized(path) == rest
  {
    if n > 0 {
      assert path[..2] == "./" && path[2..] == Dots(n - 1) + rest;
      TrimIsUnique(path[2..], n - 1, rest);
    }
  }

  /** The name under which a path is known. */
  function Name(path: seq<byte>, text: seq<byte> -> string): string {
    Normalized(text(path))
  }

  predicate EntryAllowed(e: Entry, text: seq<byte> -> string) {
    && e.kind != Special && |e.data| <= MAX_FILE && SafePath(e.path) && Name(e.path, text) != ""
    && (e.kind == Regular && Name(e.path, text) == MANIFEST ==> |e.data| <= MAX_MANIFEST)
    && (e.kind == Regular && Name(e.path, text) == FILES ==> |e.data| <= MAX_FILES_LIST)
  }

  function Total(entries: seq<Entry>): nat {
    if entries == [] then 0 else Total(entries[..|entries| - 1]) + |entries[|entries| - 1].data|
  }

  lemma {:induction false} TotalGrows(entries: seq<Entry>, i: nat)
    requires i <= |entries|
    ensures Total(entries[..i]) <= Total(entries)
    decreases |entries| - i
  {
    if i == |entries| {
      assert entries[..i] == entries;
    } else {
      assert entries[..i + 1][..i] == entries[..i];
      TotalGrows(entries, i + 1);
    }
  }

  predicate DistinctPaths(entries: seq<Entry>, text: seq<byte> -> string) {
    forall i, j :: 0 <= i < j < |entries| ==> Name(entries[i].path, text) != Name(entries[j].path, text)
  }

  /** The regular files of an archive, by normalized name. */
  function Contents(entries: seq<Entry>, text: seq<byte> -> string): map<string, seq<byte>> {
    if entries == [] then map[]
    else
      var last := entries[|entries| - 1];
      var before := Contents(entries[..|entries| - 1], text);
      if last.kind == Regular then before[Name(last.path, text) := last.data] else before
  }

  lemma {:induction false} ContentsKeys(entries: seq<Entry>, text: seq<byte> -> string, name: string)
    ensures name in Contents(entries, text) <==>
              exists i :: 0 <= i < |entries| && entries[i].kind == Regular && Name(entries[i].path, text) == name
  {
    if entries != [] {
      ContentsKeys(entries[..|entries| - 1], text, name);
      var last := entries[|entries| - 1];
      if name in Contents(entries[..|entries| - 1], text) {
        var i :| 0 <= i < |entries| - 1 && entries[i].kind == Regular && Name(entries[i].path, text) == name;
        assert entries[..|entries| - 1][i] == entries[i];
      }
      if exists i :: 0 <= i < |entries| && entries[i].kind == Regular && Name(entries[i].path, text) == name {
        var i :| 0 <= i < |entries| && entries[i].kind == Regular && Name(entries[i].path, text) == name;
        if i < |entries| - 1 { assert entries[..|entries| - 1][i] == entries[i]; }
      }
    }
  }

  function Hashes(contents: map<string, seq<byte>>, hash: seq<byte> -> string): map<string, string> {
    map n | n in contents :: hash(contents[n])
  }

  /** The list declares each regular file other than the two metadata files, with its checksum. */
  ghost predicate Describes(declared: seq<Declared>, hashes: map<string, string>) {
    && (forall i :: 0 <= i < |declared| && declared[i].isFile ==>
          && declared[i].name.Some? && declared[i].checksum.Some?
          && declared[i].name.value in hashes && hashes[declared[i].name.value] == declared[i].checksum.value)
    && (forall i, j :: 0 <= i < j < |declared| && declared[i].isFile && declared[j].isFile ==>
          declared[i].name != declared[j].name)
    && (forall n :: (n in hashes && n != MANIFEST && n != FILES) <==>
          exists i :: 0 <= i < |declared| && declared[i].isFile && declared[i].name == Some(n))
  }

  ghost predicate FilesValid(manifest: Manifest, filesData: seq<byte>, hashes: map<string, string>, tools: Tools) {
    && tools.files(filesData).Some?
    && Describes(tools.files(filesData).value, hashes)
    && manifest.filesChecksum.Some? && FILES in hashes && hashes[FILES] == manifest.filesChecksum.value
  }

  predicate MetaValid(meta: Option<Meta>) {
    && meta.Some? && ValidName(meta.value.key.namespace) && ValidName(meta.value.key.name)
    && ValidVersion(meta.value.key.version) && meta.value.dependenciesAreObject
  }

  /** Everything the archive check demands. */
  ghost predicate Accepted(entries: seq<Entry>, tools: Tools) {
    var contents := Contents(entries, tools.text);
    && |entries| <= MAX_ENTRIES && (forall e :: e in entries ==> EntryAllowed(e, tools.text))
    && Total(entries) <= MAX_TOTAL && DistinctPaths(entries, tools.text)
    && MANIFEST in contents && FILES in contents
    && tools.manifest(contents[MANIFEST]).Some?
    && var manifest := tools.manifest(contents[MANIFEST]).value;
       && FilesValid(manifest, contents[FILES], Hashes(contents, tools.hash), tools)
       && MetaValid(manifest.meta)
  }

  /** `validate_files`. */
  method ValidateFiles(manifest: Manifest, filesData: seq<byte>, hashes: map<string, string>, tools: Tools)
    returns (ok: bool)
    ensures ok <==> FilesValid(manifest, filesData, hashes, tools)
  {
    var files := tools.files(filesData);
    if files.None? {
      return false;
    }
    var items := files.value;
    var declared: set<string> := {};
    for i := 0 to |items|
      invariant forall n :: n in declared <==> exists j :: 0 <= j < i && items[j].isFile && items[j].name == Some(n)
      invariant forall j :: 0 <= j < i && items[j].isFile ==>
                  && items[j].name.Some? && items[j].checksum.Some?
                  && items[j].name.value in hashes && hashes[items[j].name.value] == items[j].checksum.value
      invariant forall j, k :: 0 <= j < k < i && items[j].isFile && items[k].isFile ==> items[j].name != items[k].name
    {
      var item := items[i];
      if !item.isFile {
        continue;
      }
      if item.name.None? || item.checksum.None? {
        return false;
      }
      var name := item.name.value;
      if name in declared {
        return false;
      }
      declared := declared + {name};
      if name !in hashes || hashes[name] != item.checksum.value {
        return false;
      }
    }
    var expectedFiles := set n | n in hashes && n != MANIFEST && n != FILES;
    if declared != expectedFiles {
      return false;
    }
    assert Describes(items, hashes) by {
      forall n ensures (n in hashes && n != MANIFEST && n != FILES) <==>
                       exists i :: 0 <= i < |items| && items[i].isFile && items[i].name == Some(n) {
        assert n in declared <==> n in expectedFiles;
      }
    }
    if manifest.filesChecksum.None? {
      return false;
    }
    return FILES in hashes && hashes[FILES] == manifest.filesChecksum.value;
  }

  /** `inspect_archive`, after the preflight. */
  method InspectArchive(entries: seq<Entry>, tools: Tools) returns (r: Option<Meta>)
    ensures r.Some? <==> Accepted(entries, tools)
    ensures r.Some? ==> r == tools.manifest(Contents(entries, tools.text)[MANIFEST]).value.meta
                        && ValidKey(r.value.key)
    ensures r.Some? ==> forall e :: e in entries ==> StaysBelow(e.path)
  {
    var manifestData, filesData, fileHashes, ok := ReadEntries(entries, tools.text, tools.hash);
    if !ok {
      return None;
    }
    if filesData.None? || manifestData.None? {
      return None;
    }
    var manifest := tools.manifest(manifestData.value);
    if manifest.None? {
      return None;
    }
    var filesOk := ValidateFiles(manifest.value, filesData.value, fileHashes, tools);
    if !filesOk || manifest.value.meta.None? {
      return None;
    }
    var meta := manifest.value.meta.value;
    if !ValidName(meta.key.namespace) || !ValidName(meta.key.name) || !ValidVersion(meta.key.version) {
      return None;
    }
    if !meta.dependenciesAreObject {
      return None;
    }
    AcceptedKeyIsValid(meta.key);
    return Some(meta);
  }

  function Get(contents: map<string, seq<byte>>, name: string): Option<seq<byte>> {
    if name in contents then Some(contents[name]) else None
  }

  lemma NothingRead(entries: seq<Entry>, text: seq<byte> -> string, hash: seq<byte> -> string)
    ensures Contents(entries[..0], text) == map[] && Total(entries[..0]) == 0 && Hashes(map[], hash) == map[]
  {
  }

  lemma NextEntry(entries: seq<Entry>, i: nat, text: seq<byte> -> string, hash: seq<byte> -> string)
    requires i < |entries|
    ensures var e, before, after := entries[i], Contents(entries[..i], text), Contents(entries[..i + 1], text);
            && after == (if e.kind == Regular then before[Name(e.path, text) := e.data] else before)
            && Hashes(after, hash) == (if e.kind == Regular then
                                         Hashes(before, hash)[Name(e.path, text) := hash(e.data)]
                                       else Hashes(before, hash))
    ensures Total(entries[..i + 1]) == Total(entries[..i]) + |entries[i].data| <= Total(entries)
    ensures entries[i] in entries
  {
    assert entries[..i + 1][..i] == entries[..i];
    TotalGrows(entries, i + 1);
  }

  /** The loop over the entries: limits, paths, hashes, and the two metadata files. */
  method ReadEntries(entries: seq<Entry>, text: seq<byte> -> string, hash: seq<byte> -> string)
    returns (manifest: Option<seq<byte>>, files: Option<seq<byte>>, fileHashes: map<string, string>, ok: bool)
    ensures ok <==> |entries| <= MAX_ENTRIES && (forall e :: e in entries ==> EntryAllowed(e, text))
                    && Total(entries) <= MAX_TOTAL && DistinctPaths(entries, text)
    ensures ok ==> manifest == Get(Contents(entries, text), MANIFEST) && files == Get(Contents(entries, text), FILES)
    ensures ok ==> fileHashes == Hashes(Contents(entries, text), hash)
    ensures ok ==> forall e :: e in entries ==> StaysBelow(e.path)
  {
    hide Contents, Total, Hashes, Normalized, SafePath, StaysBelow;
    manifest, files, fileHashes, ok := None, None, map[], false;
    assert Contents(entries[..0], text) == map[] && Total(entries[..0]) == 0 && Hashes(map[], hash) == map[] by {
      NothingRead(entries, text, hash);
    }
    var paths: set<string> := {};
    var count, totalSize := 0, 0;
    for i := 0 to |entries|
      invariant count == i <= MAX_ENTRIES
      invariant forall j :: 0 <= j < i ==> EntryAllowed(entries[j], text)
      invariant totalSize == Total(entries[..i]) <= MAX_TOTAL
      invariant forall n :: n in paths <==> exists j :: 0 <= j < i && Name(entries[j].path, text) == n
      invariant DistinctPaths(entries[..i], text)
      invariant manifest == Get(Contents(entries[..i], text), MANIFEST)
                && files == Get(Contents(entries[..i], text), FILES)
      invariant fileHashes == Hashes(Contents(entries[..i], text), hash)
    {
      var e := entries[i];
      NextEntry(entries, i, text, hash);
      count := count + 1;
      if count > MAX_ENTRIES || e.kind == Special {
        return;
      }
      if |e.data| > MAX_FILE || totalSize + |e.data| > MAX_TOTAL {
        return;
      }
      totalSize := totalSize + |e.data|;
      if !SafePath(e.path) {
        return;
      }
      var normalized := Name(e.path, text);
      if normalized == "" || normalized in paths {
        return;
      }
      paths := paths + {normalized};
      if e.kind == Directory {
        continue;
      }
      if normalized == MANIFEST {
        ContentsKeys(entries[..i], text, MANIFEST);
        if manifest.Some? || |e.data| > MAX_MANIFEST {
          return;
        }
        manifest := Some(e.data);
      } else if normalized == FILES {
        if |e.data| > MAX_FILES_LIST {
          return;
        }
        files := Some(e.data);
      }
      fileHashes := fileHashes[normalized := hash(e.data)];
    }
    assert entries[..|entries|] == entries;
    forall e | e in entries ensures StaysBelow(e.path) {
      SafeStaysBelow(e.path);
    }
    ok := true;
  }

  /** No two different files of the two archives have the same hash. */
  ghost predicate NoCollision(a: map<string, seq<byte>>, b: map<string, seq<byte>>, hash: seq<byte> -> string) {
    forall x, y :: x in a && y in b && hash(a[x]) == hash(b[y]) ==> a[x] == b[y]
  }

  /**
   The manifest binds the archive: two accepted archives with the same MANIFEST.json have
   the same file names, as texts, with the same contents, unless SHA-256 collides on their files.
   */
  lemma ManifestBindsContents(a: seq<Entry>, b: seq<Entry>, tools: Tools)
    requires Accepted(a, tools) && Accepted(b, tools)
    requires Contents(a, tools.text)[MANIFEST] == Contents(b, tools.text)[MANIFEST]
    requires NoCollision(Contents(a, tools.text), Contents(b, tools.text), tools.hash)
    ensures Contents(a, tools.text) == Contents(b, tools.text)
  {
    var left, right := Contents(a, tools.text), Contents(b, tools.text);
    assert left[FILES] == right[FILES];
    forall n | n in left || n in right ensures n in left && n in right && left[n] == right[n] {
      if n != MANIFEST && n != FILES {
        DeclaredAlike(tools.files(left[FILES]).value, left, right, tools.hash, n);
      }
    }
  }

  lemma DeclaredAlike(declared: seq<Declared>, left: map<string, seq<byte>>, right: map<string, seq<byte>>,
                      hash: seq<byte> -> string, n: string)
    requires Describes(declared, Hashes(left, hash)) && Describes(declared, Hashes(right, hash))
    requires (n in left || n in right) && n != MANIFEST && n != FILES
    ensures n in left && n in right && hash(left[n]) == hash(right[n])
  {
    assert n in Hashes(left, hash) || n in Hashes(right, hash);
    var i :| 0 <= i < |declared| && declared[i].isFile && declared[i].name == Some(n);
    assert declared[i].name.value in Hashes(left, hash) && declared[i].name.value in Hashes(right, hash);
  }

  // The same for names as they are in the archive: decoding them may lose something.

  /** The regular files by the bytes of their path. */
  function RawContents(entries: seq<Entry>): map<seq<byte>, seq<byte>> {
    if entries == [] then map[]
    else
      var last := entries[|entries| - 1];
      var before := RawContents(entries[..|entries| - 1]);
      if last.kind == Regular then before[last.path := last.data] else before
  }

  ghost predicate FileAt(entries: seq<Entry>, i: nat, path: seq<byte>) {
    i < |entries| && entries[i].kind == Regular && entries[i].path == path
  }

  lemma {:induction false} PathHasFile(entries: seq<Entry>, path: seq<byte>)
    ensures path in RawContents(entries) <==> exists i :: FileAt(entries, i, path)
  {
    if entries != [] {
      var front := entries[..|entries| - 1];
      PathHasFile(front, path);
      assert forall i :: FileAt(front, i, path) ==> FileAt(entries, i, path);
      assert forall i :: FileAt(entries, i, path) ==> FileAt(front, i, path) || i == |front|;
      assert entries[|front|].kind == Regular && entries[|front|].path == path ==> FileAt(entries, |front|, path);
    }
  }

  /** In an archive without duplicates a file has its own contents under either name. */
  lemma {:induction false} FileIsThere(entries: seq<Entry>, text: seq<byte> -> string, i: nat)
    requires DistinctPaths(entries, text) && i < |entries| && entries[i].kind == Regular
    ensures var e, raw, contents := entries[i], RawContents(entries), Contents(entries, text);
            && e.path in raw && raw[e.path] == e.data
            && Name(e.path, text) in contents && contents[Name(e.path, text)] == e.data
  {
    var n := |entries| - 1;
    if i < n {
      FileIsThere(entries[..n], text, i);
      assert entries[..n][i] == entries[i];
    }
  }

  /** Decoding and trimming identify no two different names of the two archives. */
  ghost predicate KeepsApart(a: seq<Entry>, b: seq<Entry>, text: seq<byte> -> string) {
    forall x, y :: x in RawContents(a) && y in RawContents(b) && Name(x, text) == Name(y, text) ==> x == y
  }

  lemma RawSubset(a: seq<Entry>, b: seq<Entry>, text: seq<byte> -> string, x: seq<byte>)
    requires DistinctPaths(a, text) && DistinctPaths(b, text) && Contents(a, text) == Contents(b, text)
    requires KeepsApart(a, b, text) && x in RawContents(a)
    ensures x in RawContents(b) && RawContents(b)[x] == RawContents(a)[x]
  {
    PathHasFile(a, x);
    var i :| FileAt(a, i, x);
    FileIsThere(a, text, i);
    ContentsKeys(b, text, Name(x, text));
    var j :| 0 <= j < |b| && b[j].kind == Regular && Name(b[j].path, text) == Name(x, text);
    FileIsThere(b, text, j);
    assert b[j].path == x;
  }

  /**
   So the archives have the same files under the same paths exactly if decoding and trimming
   keep their paths apart.
   */
  lemma SamePathsIff(a: seq<Entry>, b: seq<Entry>, tools: Tools)
    requires Accepted(a, tools) && Accepted(b, tools)
    requires Contents(a, tools.text)[MANIFEST] == Contents(b, tools.text)[MANIFEST]
    requires NoCollision(Contents(a, tools.text), Contents(b, tools.text), tools.hash)
    ensures RawContents(a) == RawContents(b) <==> KeepsApart(a, b, tools.text)
  {
    ManifestBindsContents(a, b, tools);
    assert DistinctPaths(a, tools.text) && DistinctPaths(b, tools.text);
    hide Accepted, Contents, RawContents, NoCollision;
    if KeepsApart(a, b, tools.text) {
      assert KeepsApart(b, a, tools.text);
      forall x | x in RawContents(a) ensures x in RawContents(b) && RawContents(b)[x] == RawContents(a)[x] {
        RawSubset(a, b, tools.text, x);
      }
      forall x | x in RawContents(b) ensures x in RawContents(a) {
        RawSubset(b, a, tools.text, x);
      }
    } else if RawContents(a) == RawContents(b) {
      forall x, y | x in RawContents(a) && y in RawContents(a) && Name(x, tools.text) == Name(y, tools.text)
        ensures x == y
      {
        OnePathPerName(a, tools.text, x, y);
      }
    }
  }

  lemma OnePathPerName(entries: seq<Entry>, text: seq<byte> -> string, x: seq<byte>, y: seq<byte>)
    requires DistinctPaths(entries, text) && x in RawContents(entries) && y in RawContents(entries)
    requires Name(x, text) == Name(y, text)
    ensures x == y
  {
    PathHasFile(entries, x);
    PathHasFile(entries, y);
    var i :| FileAt(entries, i, x);
    var j :| FileAt(entries, j, y);
    assert i == j;
  }

  lemma {:induction false} SameByName(a: seq<Entry>, b: seq<Entry>, text: seq<byte> -> string)
    requires |a| == |b|
    requires forall i :: 0 <= i < |a| ==>
               b[i].kind == a[i].kind && b[i].data == a[i].data && Name(b[i].path, text) == Name(a[i].path, text)
    ensures Contents(a, text) == Contents(b, text) && Total(a) == Total(b)
  {
    if a != [] {
      SameByName(a[..|a| - 1], b[..|b| - 1], text);
    }
  }

  /** An accepted archive stays accepted, with its manifest, under any safe path that decodes alike. */
  lemma RenamedIsAccepted(a: seq<Entry>, i: nat, path: seq<byte>, tools: Tools)
    requires Accepted(a, tools) && i < |a| && SafePath(path) && tools.text(path) == tools.text(a[i].path)
    ensures var b := a[i := a[i].(path := path)];
            Accepted(b, tools) && Contents(b, tools.text) == Contents(a, tools.text)
  {
    var b := a[i := a[i].(path := path)];
    SameByName(a, b, tools.text);
    hide Contents, Total, SafePath, Normalized, FilesValid, MetaValid;
    forall e | e in b ensures EntryAllowed(e, tools.text) {
      var j :| 0 <= j < |b| && b[j] == e;
      assert EntryAllowed(a[j], tools.text);
    }
  }

  // Two archives that differ in one file name, FF or FE, which no text can show.

  /** Lossy decoding of texts without multi-byte characters: a stray byte becomes U+FFFD. */
  function Lossy(path: seq<byte>): string {
    seq(|path|, i requires 0 <= i < |path| => if path[i] < 128 then path[i] as char else '\U{FFFD}')
  }

  function Ascii(s: string): seq<byte> {
    seq(|s|, i requires 0 <= i < |s| => if s[i] as int < 128 then (s[i] as int) as byte else 0)
  }

  const MANIFEST_PATH: seq<byte> := Ascii(MANIFEST)
  const FILES_PATH: seq<byte> := Ascii(FILES)
  const UNKNOWN := "\U{FFFD}"

  lemma SampleTexts()
    ensures Lossy(MANIFEST_PATH) == MANIFEST && Lossy(FILES_PATH) == FILES && Lossy([]) == ""
    ensures Lossy([255]) == UNKNOWN && Lossy([254]) == UNKNOWN
  {
  }

  lemma SamplePathsAreSafe()
    ensures SafePath(MANIFEST_PATH) && SafePath(FILES_PATH) && SafePath([255]) && SafePath([254])
  {
    NoSlashIsSafe(MANIFEST_PATH);
    NoSlashIsSafe(FILES_PATH);
    NoSlashIsSafe([255]);
    NoSlashIsSafe([254]);
  }

  lemma NoSlashIsSafe(path: seq<byte>)
    requires SLASH !in path && path != [46, 46]
    ensures SafePath(path)
  {
    SplitJoined([path], SLASH);
    assert Join([path], SLASH) == path;
    assert path != [] ==> path[0] in path;
  }

  lemma SampleNames()
    ensures Name(MANIFEST_PATH, Lossy) == MANIFEST && Name(FILES_PATH, Lossy) == FILES
    ensures Name([255], Lossy) == UNKNOWN && Name([254], Lossy) == UNKNOWN
  {
    hide Lossy, Ascii, Normalized, IsPrefix;
    SampleTexts();
    NotTrimmed(MANIFEST);
    NotTrimmed(FILES);
    NotTrimmed(UNKNOWN);
  }

  lemma NotTrimmed(name: string)
    requires name != "" && name[0] != '.'
    ensures Normalized(name) == name
  {
  }

  function SampleTools(meta: Meta): Tools {
    var declared := [Declared(true, Some(UNKNOWN), Some(""))];
    Tools(Lossy, Lossy, data => Some(declared), data => Some(Manifest(Some(""), Some(meta))))
  }

  function SampleArchive(path: seq<byte>): seq<Entry> {
    [Entry(Regular, MANIFEST_PATH, []), Entry(Regular, FILES_PATH, []), Entry(Regular, path, [])]
  }

  const SAMPLE_CONTENTS: map<string, seq<byte>> := map[MANIFEST := [], FILES := [], UNKNOWN := []]

  lemma SampleHolds(path: seq<byte>)
    requires Name(path, Lossy) == UNKNOWN
    ensures Contents(SampleArchive(path), Lossy) == SAMPLE_CONTENTS
    ensures Total(SampleArchive(path)) == 0 && DistinctPaths(SampleArchive(path), Lossy)
  {
    var a := SampleArchive(path);
    SampleNames();
    hide Name, Lossy, Ascii;
    assert a[..2][..1] == a[..1] && a[..1][..0] == [];
    assert Contents(a[..1], Lossy) == map[MANIFEST := []];
    assert Contents(a[..2], Lossy) == map[MANIFEST := [], FILES := []];
    assert Total(a[..1]) == 0 && Total(a[..2]) == 0;
  }

  lemma SampleIsDescribed()
    ensures Hashes(SAMPLE_CONTENTS, Lossy) == map[MANIFEST := "", FILES := "", UNKNOWN := ""]
    ensures Describes([Declared(true, Some(UNKNOWN), Some(""))], Hashes(SAMPLE_CONTENTS, Lossy))
  {
    SampleTexts();
    var declared := [Declared(true, Some(UNKNOWN), Some(""))];
    assert declared[0].name == Some(UNKNOWN);
    assert |MANIFEST| == 13 && |FILES| == 10;
  }

  lemma SampleIsAccepted(path: seq<byte>, meta: Meta)
    requires Name(path, Lossy) == UNKNOWN && SafePath(path) && MetaValid(Some(meta))
    ensures Accepted(SampleArchive(path), SampleTools(meta))
  {
    hide Contents, Total, SafePath, DistinctPaths, MetaValid, Ascii, Lossy, Name, Hashes, Describes;
    SampleHolds(path);
    SampleNames();
    SamplePathsAreSafe();
    SampleIsDescribed();
    assert forall e :: e in SampleArchive(path) ==> EntryAllowed(e, Lossy);
  }

  /** Two accepted archives with one manifest may hold files of different names. */
  lemma PathsMayDiffer(meta: Meta)
    requires MetaValid(Some(meta))
    ensures exists tools, a, b :: Accepted(a, tools) && Accepted(b, tools)
              && Contents(a, tools.text)[MANIFEST] == Contents(b, tools.text)[MANIFEST]
              && NoCollision(Contents(a, tools.text), Contents(b, tools.text), tools.hash)
              && RawContents(a) != RawContents(b)
  {
    var tools, a, b := SampleTools(meta), SampleArchive([255]), SampleArchive([254]);
    SampleNames();
    SamplePathsAreSafe();
    hide Accepted, Contents, RawContents, Name, Lossy, SafePath, MetaValid;
    SampleIsAccepted([255], meta);
    SampleIsAccepted([254], meta);
    SampleHolds([255]);
    SampleHolds([254]);
    SamplePathsDiffer();
    assert NoCollision(Contents(a, tools.text), Contents(b, tools.text), tools.hash);
  }

  lemma SamplePathsDiffer()
    ensures RawContents(SampleArchive([255])) != RawContents(SampleArchive([254]))
  {
    var a, b := SampleArchive([255]), SampleArchive([254]);
    PathHasFile(a, [255]);
    PathHasFile(b, [255]);
    assert FileAt(a, 2, [255]);
    assert |MANIFEST_PATH| == 13 && |FILES_PATH| == 10;
  }
}
