/**
 What startup reads and removes: the scan of the record tree, and the removal of orphaned
 artifacts (src/storage.rs).
 */
module Storage {
  import opened Wrappers
  import opened Keys

  /** A publication record. Dependencies are not needed here. */
  datatype Record = Record(key: Key, sha256: string, size: nat, artifact: string, publishedAt: nat)

  const MAX_LEGACY_RECORD_BYTES: nat := 2 * 1024 * 1024

  // The record tree.

  /** A directory entry. */
  datatype Node = File(name: string, bytes: seq<byte>) | Dir(name: string, children: seq<Node>)

  /** `Path::extension`: what follows the last dot, unless that dot starts the name. */
  function Extension(name: string): Option<string> {
    if exists i :: 0 < i < |name| && name[i] == '.' && '.' !in name[i + 1..] then
      AfterLastDot(name)
    else None
  }

  function AfterLastDot(name: string): Option<string> {
    if name == "" then None
    else
      match AfterLastDot(name[1..])
      case Some(rest) => Some(rest)
      case None => if name[0] == '.' then Some(name[1..]) else None
  }

  predicate IsJson(name: string) {
    Extension(name) == Some("json")
  }

  /** The file name of a temporary record: `.tmp` and six random letters or digits. */
  predicate IsTemporary(name: string) {
    |name| == 10 && name[..4] == ".tmp" && '.' !in name[4..]
  }

  lemma {:induction false} NoDot(s: string)
    requires '.' !in s
    ensures AfterLastDot(s) == None
  {
    if s != "" {
      NoDot(s[1..]);
    }
  }

  lemma {:induction false} LastDot(prefix: string, rest: string)
    requires '.' !in rest
    ensures AfterLastDot(prefix + "." + rest) == Some(rest)
  {
    NoDot(rest);
    var s := prefix + "." + rest;
    if prefix == "" {
      assert s[1..] == rest;
    } else {
      LastDot(prefix[1..], rest);
      assert s[1..] == prefix[1..] + "." + rest;
    }
  }

  lemma {:induction false} AfterDot(name: string) returns (prefix: string)
    requires AfterLastDot(name).Some?
    ensures name == prefix + "." + AfterLastDot(name).value && '.' !in AfterLastDot(name).value
  {
    if AfterLastDot(name[1..]).Some? {
      prefix := AfterDot(name[1..]);
      prefix := [name[0]] + prefix;
    } else {
      NoLastDot(name[1..]);
      prefix := "";
    }
  }

  lemma {:induction false} NoLastDot(s: string)
    requires AfterLastDot(s).None?
    ensures '.' !in s
  {
    if s != "" {
      NoLastDot(s[1..]);
    }
  }

  /** Record files are those whose name is something and then `.json`. */
  lemma IsJsonIff(name: string)
    ensures IsJson(name) <==> exists stem :: stem != "" && name == stem + ".json"
  {
    if IsJson(name) {
      var stem := AfterDot(name);
      var i :| 0 < i < |name| && name[i] == '.' && '.' !in name[i + 1..];
      assert "." + "json" == ".json" && name == stem + ".json";
      var tail := name[|stem| + 1..];
      assert tail == "json";
      forall k | |stem| < k < |name| ensures name[k] != '.' {
        assert name[k] == tail[k - |stem| - 1];
      }
    }
    if stem :| stem != "" && name == stem + ".json" {
      OnlyRecordsAreJson(stem, "");
    }
  }

  /** Final records are read back, and leftovers of an interrupted publication are not. */
  lemma OnlyRecordsAreJson(version: string, name: string)
    requires version != ""
    ensures IsJson(version + ".json")
    ensures IsTemporary(name) ==> !IsJson(name)
  {
    var file := version + ".json";
    LastDot(version, "json");
    assert file == version + "." + "json" && file[|version| + 1..] == "json" && file[|version|] == '.';
    if IsTemporary(name) {
      forall i | 0 < i < |name| ensures name[i] != '.' {
        if i < 4 { assert name[i] == name[..4][i]; } else { assert name[i] == name[4..][i - 4]; }
      }
    }
  }

  function Size(nodes: seq<Node>): nat {
    if nodes == [] then 0
    else
      (match nodes[0] case File(_, _) => 1 case Dir(_, children) => 1 + Size(children)) + Size(nodes[1..])
  }

  function Readable(bytes: seq<byte>, parse: seq<byte> -> Option<Record>): bool {
    |bytes| <= MAX_LEGACY_RECORD_BYTES && parse(bytes).Some?
  }

  /** No record file of the tree is oversized or malformed. */
  predicate AllReadable(nodes: seq<Node>, parse: seq<byte> -> Option<Record>) {
    nodes != [] ==>
      && AllReadable(nodes[1..], parse)
      && match nodes[0]
         case File(name, bytes) => IsJson(name) ==> Readable(bytes, parse)
         case Dir(_, children) => AllReadable(children, parse)
  }

  /** Every record of the tree, once for each file that holds it. */
  function RecordsIn(nodes: seq<Node>, parse: seq<byte> -> Option<Record>): multiset<Record>
    requires AllReadable(nodes, parse)
  {
    if nodes == [] then multiset{}
    else
      (match nodes[0]
       case File(name, bytes) => if IsJson(name) then multiset{parse(bytes).value} else multiset{}
       case Dir(_, children) => RecordsIn(children, parse)) + RecordsIn(nodes[1..], parse)
  }

  /** The tree without the temporary files that a crash may leave behind. */
  function Tidied(nodes: seq<Node>): seq<Node> {
    if nodes == [] then []
    else
      match nodes[0]
      case File(name, _) => (if IsTemporary(name) then [] else [nodes[0]]) + Tidied(nodes[1..])
      case Dir(name, children) => [Dir(name, Tidied(children))] + Tidied(nodes[1..])
  }

  /** Temporary records never become records. */
  lemma {:induction false} TemporariesAreInvisible(nodes: seq<Node>, parse: seq<byte> -> Option<Record>)
    ensures AllReadable(Tidied(nodes), parse) <==> AllReadable(nodes, parse)
    ensures AllReadable(nodes, parse) ==> RecordsIn(Tidied(nodes), parse) == RecordsIn(nodes, parse)
  {
    if nodes != [] {
      TemporariesAreInvisible(nodes[1..], parse);
      var rest := Tidied(nodes[1..]);
      match nodes[0] {
        case File(name, bytes) =>
          OnlyRecordsAreJson("0", name);
          if IsTemporary(name) {
            assert Tidied(nodes) == rest;
          } else {
            assert Tidied(nodes)[0] == nodes[0] && Tidied(nodes)[1..] == rest;
          }
        case Dir(name, children) =>
          TemporariesAreInvisible(children, parse);
          assert Tidied(nodes)[0] == Dir(name, Tidied(children)) && Tidied(nodes)[1..] == rest;
      }
    }
  }

  // What a stack of directories still holds.

  function PendingSize(pending: seq<seq<Node>>): nat {
    if pending == [] then 0
    else 1 + Size(pending[|pending| - 1]) + PendingSize(pending[..|pending| - 1])
  }

  predicate PendingReadable(pending: seq<seq<Node>>, parse: seq<byte> -> Option<Record>) {
    pending != [] ==>
      AllReadable(pending[|pending| - 1], parse) && PendingReadable(pending[..|pending| - 1], parse)
  }

  function PendingRecords(pending: seq<seq<Node>>, parse: seq<byte> -> Option<Record>): multiset<Record>
    requires PendingReadable(pending, parse)
  {
    if pending == [] then multiset{}
    else RecordsIn(pending[|pending| - 1], parse) + PendingRecords(pending[..|pending| - 1], parse)
  }

  lemma Push(pending: seq<seq<Node>>, dir: seq<Node>, parse: seq<byte> -> Option<Record>)
    ensures PendingSize(pending + [dir]) == 1 + Size(dir) + PendingSize(pending)
    ensures PendingReadable(pending + [dir], parse) <==> AllReadable(dir, parse) && PendingReadable(pending, parse)
    ensures PendingReadable(pending + [dir], parse) ==>
              PendingRecords(pending + [dir], parse) == RecordsIn(dir, parse) + PendingRecords(pending, parse)
  {
    assert (pending + [dir])[..|pending|] == pending;
  }

  /**
   `read_records`: walks the tree with a stack of directories. It yields every record of the
   tree exactly once, or fails exactly when some record file cannot be read back.
   */
  method ReadRecords(root: seq<Node>, parse: seq<byte> -> Option<Record>) returns (r: Option<seq<Record>>)
    ensures r.Some? <==> AllReadable(root, parse)
    ensures r.Some? ==> multiset(r.value) == RecordsIn(root, parse)
  {
    var pending := [root];
    var out: seq<Record> := [];
    Push([], root, parse);
    assert [] + [root] == [root];
    while pending != []
      invariant AllReadable(root, parse) <==> PendingReadable(pending, parse)
      invariant PendingReadable(pending, parse) ==>
                  multiset(out) + PendingRecords(pending, parse) == RecordsIn(root, parse)
      decreases PendingSize(pending)
    {
      var dir := pending[|pending| - 1];
      pending := pending[..|pending| - 1];
      var bad;
      bad, pending, out := ReadDirectory(dir, pending, out, parse);
      if bad {
        return None;
      }
    }
    return Some(out);
  }

  /** The loop over the entries of one directory. */
  method ReadDirectory(dir: seq<Node>, pending0: seq<seq<Node>>, out0: seq<Record>,
                       parse: seq<byte> -> Option<Record>)
    returns (bad: bool, pending: seq<seq<Node>>, out: seq<Record>)
    ensures bad ==> !AllReadable(dir, parse)
    ensures !bad ==> PendingSize(pending) <= Size(dir) + PendingSize(pending0)
    ensures !bad ==> (PendingReadable(pending, parse) <==> AllReadable(dir, parse) && PendingReadable(pending0, parse))
    ensures !bad && PendingReadable(pending, parse) ==>
              multiset(out) + PendingRecords(pending, parse)
              == multiset(out0) + RecordsIn(dir, parse) + PendingRecords(pending0, parse)
  {
    pending, out, bad := pending0, out0, false;
    for i := 0 to |dir|
      invariant PendingSize(pending) + Size(dir[i..]) <= Size(dir) + PendingSize(pending0)
      invariant AllReadable(dir, parse) && PendingReadable(pending0, parse)
           <==> AllReadable(dir[i..], parse) && PendingReadable(pending, parse)
      invariant !AllReadable(dir[i..], parse) ==> !AllReadable(dir, parse)
      invariant AllReadable(dir[i..], parse) && PendingReadable(pending, parse) ==>
                  multiset(out) + RecordsIn(dir[i..], parse) + PendingRecords(pending, parse)
                  == multiset(out0) + RecordsIn(dir, parse) + PendingRecords(pending0, parse)
    {
      assert dir[i..][1..] == dir[i + 1..] && dir[i..][0] == dir[i];
      match dir[i]
      case Dir(_, children) =>
        Push(pending, children, parse);
        pending := pending + [children];
      case File(name, bytes) =>
        if IsJson(name) {
          if !Readable(bytes, parse) {
            bad := true;
            return;
          }
          out := out + [parse(bytes).value];
        }
    }
  }

  // Removal of orphaned artifacts.

  const GRACE_SECONDS: nat := 24 * 60 * 60

  function Cutoff(now: nat): nat {
    if now > GRACE_SECONDS then now - GRACE_SECONDS else 0
  }

  /** What a listing shows of an artifact. A name or a time may be unreadable. */
  datatype Listed = Listed(name: Option<string>, modified: Option<nat>)

  predicate Orphan(referenced: set<string>, cutoff: nat, item: Listed) {
    item.name.Some? && item.modified.Some? && item.name.value !in referenced && item.modified.value < cutoff
  }

  function Orphans(items: seq<Listed>, referenced: set<string>, cutoff: nat): set<string> {
    set i | 0 <= i < |items| && Orphan(referenced, cutoff, items[i]) :: items[i].name.value
  }

  function ArtifactsOf(records: seq<Record>): set<string> {
    set i | 0 <= i < |records| :: records[i].artifact
  }

  /** A listing that shows every artifact, with its name and time. */
  ghost predicate Shows(items: seq<Listed>, artifacts: map<string, nat>) {
    && (forall i :: 0 <= i < |items| ==>
          items[i].name.Some? && items[i].name.value in artifacts
          && items[i].modified == Some(artifacts[items[i].name.value]))
    && (forall n :: n in artifacts ==> exists i :: 0 <= i < |items| && items[i].name == Some(n))
  }

  ghost predicate Survives(n: string, artifacts: map<string, nat>, records: seq<Record>, now: nat) {
    n in artifacts && (n in ArtifactsOf(records) || artifacts[n] + GRACE_SECONDS >= now)
  }

  /** The orphans of a full listing are exactly the old artifacts that no record names. */
  lemma OthersSurvive(items: seq<Listed>, artifacts: map<string, nat>, records: seq<Record>, now: nat)
    requires Shows(items, artifacts)
    ensures forall n :: n in artifacts - Orphans(items, ArtifactsOf(records), Cutoff(now))
                        <==> Survives(n, artifacts, records, now)
  {
    forall n | n in artifacts
      ensures n in Orphans(items, ArtifactsOf(records), Cutoff(now)) <==> !Survives(n, artifacts, records, now)
    {
      var i :| 0 <= i < |items| && items[i].name == Some(n);
      assert Orphan(ArtifactsOf(records), Cutoff(now), items[i]) <==> !Survives(n, artifacts, records, now);
    }
  }

  /** A loop over pages ends at the request for page `p`, or at its item `i`. */
  predicate StopsAt(pages: seq<seq<Listed>>, p: nat, i: nat, badPages: set<nat>, faults: set<(nat, nat)>) {
    p < |pages| && ((i == 0 && p in badPages) || (i < |pages[p]| && (p, i) in faults))
  }

  /** The orphans on the pages before `p` and among the first `i` items of that page. */
  function OrphansBefore(pages: seq<seq<Listed>>, p: nat, i: nat, referenced: set<string>, cutoff: nat): set<string>
    requires p < |pages| && i <= |pages[p]|
  {
    Orphans(Flatten(pages[..p]), referenced, cutoff) + Orphans(pages[p][..i], referenced, cutoff)
  }

  /** The artifacts of either backend, with their modification times. */
  class ArtifactStore {
    var artifacts: map<string, nat>

    constructor (artifacts: map<string, nat>)
      ensures this.artifacts == artifacts
    {
      this.artifacts := artifacts;
    }

    /**
     `reconcile` of the local backend over a directory listing. An item at which the system
     reports an error ends it early.
     */
    method Reconcile(records: seq<Record>, items: seq<Listed>, now: nat, faults: set<nat>)
      returns (ok: bool)
      modifies this
      ensures ok && Shows(items, old(artifacts)) ==>
                forall n :: n in artifacts <==> Survives(n, old(artifacts), records, now)
      ensures ok ==> artifacts == old(artifacts) - Orphans(items, ArtifactsOf(records), Cutoff(now))
      ensures !ok ==> exists n: nat :: n < |items| && n in faults
                        && artifacts == old(artifacts) - Orphans(items[..n], ArtifactsOf(records), Cutoff(now))
    {
      var referenced := ArtifactsOf(records);
      var cutoff := Cutoff(now);
      for i := 0 to |items|
        invariant artifacts == old(artifacts) - Orphans(items[..i], referenced, cutoff)
      {
        OrphansStep(items, i, referenced, cutoff);
        if items[i].name.None? {
          continue;
        }
        if items[i].name.value !in referenced {
          if i in faults {
            return false;
          }
          if items[i].modified.Some? && items[i].modified.value < cutoff {
            artifacts := artifacts - {items[i].name.value};
          }
        }
      }
      assert items[..|items|] == items;
      if Shows(items, old(artifacts)) {
        OthersSurvive(items, old(artifacts), records, now);
      }
      return true;
    }

    /**
     `reconcile` of the S3 backend: pages until one has no continuation token. The request for
     a page may fail, and so may a removal; either ends it early.
     */
    method ReconcilePages(records: seq<Record>, pages: seq<seq<Listed>>, now: nat,
                          badPages: set<nat>, faults: set<(nat, nat)>)
      returns (ok: bool)
      requires pages != []
      modifies this
      ensures ok && Shows(Flatten(pages), old(artifacts)) ==>
                forall n :: n in artifacts <==> Survives(n, old(artifacts), records, now)
      ensures ok ==> artifacts == old(artifacts) - Orphans(Flatten(pages), ArtifactsOf(records), Cutoff(now))
      ensures ok ==> forall p :: 0 <= p < |pages| ==> p !in badPages
      ensures !ok ==> exists p: nat, i: nat :: StopsAt(pages, p, i, badPages, faults)
                        && artifacts == old(artifacts) - OrphansBefore(pages, p, i, ArtifactsOf(records), Cutoff(now))
                        && OrphansBefore(pages, p, i, ArtifactsOf(records), Cutoff(now))
                           <= Orphans(Flatten(pages), ArtifactsOf(records), Cutoff(now))
    {
      hide Orphans, ArtifactsOf, Cutoff, Flatten, Shows, Survives;
      var referenced := ArtifactsOf(records);
      var cutoff := Cutoff(now);
      assert pages[..0] == [];
      NoOrphans(referenced, cutoff);
      var token := Some(0);
      ghost var gone: set<string> := {};
      while token.Some?
        invariant token.Some? ==> token.value < |pages|
        invariant gone == Orphans(Flatten(pages[..if token.Some? then token.value else |pages|]), referenced, cutoff)
        invariant artifacts == old(artifacts) - gone
        invariant forall p :: 0 <= p < (if token.Some? then token.value else |pages|) ==> p !in badPages
        decreases |pages| - (if token.Some? then token.value else |pages|)
      {
        var p := token.value;
        OrphansOfPages(pages, p, referenced, cutoff);
        if p in badPages {
          OrphansArePrefixed(pages, p, 0, referenced, cutoff);
          assert StopsAt(pages, p, 0, badPages, faults);
          return false;
        }
        for i := 0 to |pages[p]|
          invariant artifacts == old(artifacts) - gone
          invariant gone == OrphansBefore(pages, p, i, referenced, cutoff)
        {
          OrphansStep(pages[p], i, referenced, cutoff);
          var item := pages[p][i];
          if item.name.None? {
            continue;
          }
          var oldEnough := item.modified.Some? && item.modified.value < cutoff;
          if oldEnough && item.name.value !in referenced {
            if (p, i) in faults {
              OrphansArePrefixed(pages, p, i, referenced, cutoff);
              assert StopsAt(pages, p, i, badPages, faults);
              return false;
            }
            artifacts := artifacts - {item.name.value};
            gone := gone + {item.name.value};
          }
        }
        assert pages[p][..|pages[p]|] == pages[p];
        token := if p + 1 < |pages| then Some(p + 1) else None;
      }
      assert pages[..|pages|] == pages;
      if Shows(Flatten(pages), old(artifacts)) {
        OthersSurvive(Flatten(pages), old(artifacts), records, now);
      }
      return true;
    }
  }

  lemma OrphansStep(items: seq<Listed>, i: nat, referenced: set<string>, cutoff: nat)
    requires i < |items|
    ensures Orphans(items[..i + 1], referenced, cutoff)
         == Orphans(items[..i], referenced, cutoff)
            + if Orphan(referenced, cutoff, items[i]) then {items[i].name.value} else {}
  {
    OrphansConcat(items[..i], [items[i]], referenced, cutoff);
    assert items[..i + 1] == items[..i] + [items[i]];
  }

  lemma NoOrphans(referenced: set<string>, cutoff: nat)
    ensures Orphans(Flatten([]), referenced, cutoff) == {}
  {
  }

  lemma OrphansConcat(a: seq<Listed>, b: seq<Listed>, referenced: set<string>, cutoff: nat)
    ensures Orphans(a + b, referenced, cutoff) == Orphans(a, referenced, cutoff) + Orphans(b, referenced, cutoff)
  {
    var both, left, right := Orphans(a + b, referenced, cutoff), Orphans(a, referenced, cutoff),
      Orphans(b, referenced, cutoff);
    forall n | n in left ensures n in both {
      var i :| 0 <= i < |a| && Orphan(referenced, cutoff, a[i]) && a[i].name.value == n;
      assert (a + b)[i] == a[i];
    }
    forall n | n in right ensures n in both {
      var i :| 0 <= i < |b| && Orphan(referenced, cutoff, b[i]) && b[i].name.value == n;
      assert (a + b)[|a| + i] == b[i];
    }
    forall n | n in both ensures n in left || n in right {
      var i :| 0 <= i < |a + b| && Orphan(referenced, cutoff, (a + b)[i]) && (a + b)[i].name.value == n;
      if i < |a| { assert a[i] == (a + b)[i]; } else { assert b[i - |a|] == (a + b)[i]; }
    }
  }

  lemma OrphansOfPages(pages: seq<seq<Listed>>, p: nat, referenced: set<string>, cutoff: nat)
    requires p < |pages|
    ensures Orphans(Flatten(pages[..p + 1]), referenced, cutoff)
         == Orphans(Flatten(pages[..p]), referenced, cutoff) + Orphans(pages[p], referenced, cutoff)
    ensures Orphans(pages[p][..0], referenced, cutoff) == {}
  {
    assert pages[..p + 1][..p] == pages[..p];
    OrphansConcat(Flatten(pages[..p]), pages[p], referenced, cutoff);
  }

  lemma {:induction false} OrphansArePrefixed(pages: seq<seq<Listed>>, p: nat, i: nat, referenced: set<string>,
                                              cutoff: nat)
    requires p < |pages| && i <= |pages[p]|
    ensures OrphansBefore(pages, p, i, referenced, cutoff)
         <= Orphans(Flatten(pages), referenced, cutoff)
    decreases |pages| - p
  {
    OrphansOfPages(pages, p, referenced, cutoff);
    assert pages[p] == pages[p][..i] + pages[p][i..];
    OrphansConcat(pages[p][..i], pages[p][i..], referenced, cutoff);
    if p + 1 < |pages| {
      OrphansArePrefixed(pages, p + 1, 0, referenced, cutoff);
    } else {
      assert pages[..p + 1] == pages;
    }
  }
}
