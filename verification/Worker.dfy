/**
 The publishing code as it runs: methods that change the storage and the memory of the process
 in the order of the source, while all other publishers, readers and polls may act before each
 effect. Every method is proved to be a run of the publication machine.
 */
module Worker {
  import opened Wrappers
  import opened Keys
  import opened Storage
  import opened Sorting
  import opened Publication
  import opened PublicationInvariant
  import opened PublicationSafety
  import opened PublicationRuns
  import opened RecordObjects
  import opened RecordTree

  /** What a hard link or a conditional put answers. */
  datatype Link = Linked | Exists | NotLinked

  /**
   What a download yields. `Refused` is a key that is not valid, `Mismatch` another key's record,
   `NotAFile` a path that leads to no file, `Broken` a missing or damaged artifact, `NotRead` an
   input or output error.
   */
  datatype Download =
    | Refused | Missing | Mismatch | NotAFile | NotRead | Broken
    | Bytes(record: Record, bytes: seq<byte>)

  /** The operations of a publication. Those in a set of faults fail when they are reached. */
  datatype Operation =
    | StoreRunning             // the first put_task
    | Encode                   // the record's encoding
    | MakeDir(i: nat)          // the i-th mkdir of create_dir_all
    | EnterDir                 // the rest of create_dir_all
    | OpenSource
    | CreateArtifact
    | CopySource
    | WriteRecord              // artifact synced, temporary record written
    | PutObject                // S3: the artifact
    | CommitRecord             // the hard link or the conditional put
    | FinishCommit             // directories synced, or the reply received
    | RemoveOwnFile            // the removal of the artifact after a refusal
    | StoreFinal               // the last put_task

  /** Without these a publication may still succeed or be refused properly. */
  predicate Harmless(op: Operation) {
    op.StoreRunning? || op.RemoveOwnFile? || op.StoreFinal?
  }

  /** A record file is where a local publication needs a directory, or nobody has made the one above a single dot. */
  ghost predicate Obstacle(before: State, after: State, t: TaskId)
    requires t in after.log.uploads
  {
    var k := after.log.uploads[t].record.key;
    && after.backend.local
    && ((exists d :: d in DirsMade(k) && d in after.disk.records)
        || (k.name == "." && RecordDir(k) !in before.disk.dirs))
  }

  /** Some operation failed, or something was in the way. */
  ghost predicate Hindered(before: State, after: State, t: TaskId, faults: set<Operation>)
    requires t in after.log.uploads
  {
    (exists op :: op in faults && !Harmless(op)) || Obstacle(before, after, t)
  }

  /** Neither a record nor a directory is at the place. */
  predicate Vacant(s: State, t: TaskId)
    requires t in s.log.uploads
  {
    PlaceAt(s, t) !in s.disk.records && PlaceAt(s, t) !in s.disk.dirs
  }

  /** `tried` is the state in which the commit was tried between these two. */
  ghost predicate TriedBetween(hash: seq<byte> -> string, before: State, tried: State, after: State, t: TaskId) {
    && Reaches(hash, before, tried) && Reaches(hash, tried, after) && t in tried.log.uploads
    && Get(tried.mem.workers, t) == Some(Prepared)
  }

  /** The result is what the place was like when the commit was tried, unless an operation failed then. */
  ghost predicate DecidedBy(hash: seq<byte> -> string, before: State, after: State, t: TaskId, outcome: Outcome,
                          faults: set<Operation>) {
    exists tried :: TriedBetween(hash, before, tried, after, t)
                    && outcome == if CommitRecord in faults then Error
                                  else if !Vacant(tried, t) then AlreadyExists
                                  else if FinishCommit in faults then Error else Published
  }

  /** How a publication may end: as the place decides, or with an error that has a cause. */
  ghost predicate Explained(hash: seq<byte> -> string, before: State, after: State, t: TaskId, outcome: Outcome,
                            faults: set<Operation>)
    requires t in after.log.uploads
  {
    && (DecidedBy(hash, before, after, t, outcome, faults) || outcome.Error?)
    && (outcome.Error? ==> Hindered(before, after, t, faults))
    && (outcome.AlreadyExists? && RemoveOwnFile !in faults ==> Written(after, t).None?)
  }

  lemma ErrorExplained(hash: seq<byte> -> string, before: State, after: State, t: TaskId, faults: set<Operation>,
                       op: Operation)
    requires t in after.log.uploads && op in faults && !Harmless(op)
    ensures Explained(hash, before, after, t, Error, faults)
  {
  }

  lemma DecisionExplained(hash: seq<byte> -> string, before: State, after: State, t: TaskId, outcome: Outcome,
                          faults: set<Operation>)
    requires t in after.log.uploads && DecidedBy(hash, before, after, t, outcome, faults)
    requires outcome.AlreadyExists? && RemoveOwnFile !in faults ==> Written(after, t).None?
    ensures Explained(hash, before, after, t, outcome, faults)
  {
    assert outcome.Error? ==> (CommitRecord in faults && !Harmless(CommitRecord))
                              || (FinishCommit in faults && !Harmless(FinishCommit));
  }

  lemma ReachesGrows(hash: seq<byte> -> string, s: State, s': State)
    requires Inv(hash, s) && Reaches(hash, s, s')
    ensures Grows(s, s')
  {
    hide Inv, Run, Grows;
    var steps :| Run(hash, s, steps) == Some(s');
    RunGrows(hash, s, steps, s');
  }

  lemma TriedLater(hash: seq<byte> -> string, first: State, before: State, tried: State, after: State, last: State,
                   t: TaskId)
    requires TriedBetween(hash, before, tried, after, t)
    requires Reaches(hash, first, before) && Reaches(hash, after, last)
    ensures TriedBetween(hash, first, tried, last, t)
  {
    hide Reaches;
    ReachesOn(hash, first, before, tried);
    ReachesOn(hash, tried, after, last);
  }

  /** What explains a result explains it from an earlier state to a later one. */
  lemma ExplainedLater(hash: seq<byte> -> string, first: State, before: State, after: State, last: State, t: TaskId,
                       outcome: Outcome, faults: set<Operation>)
    requires Inv(hash, first) && Inv(hash, after) && t in after.log.uploads && t in last.log.uploads
    requires Explained(hash, before, after, t, outcome, faults) && Written(last, t) == Written(after, t)
    requires Reaches(hash, first, before) && Reaches(hash, after, last)
    ensures Explained(hash, first, last, t, outcome, faults)
  {
    hide Inv, Reaches, Written, Vacant;
    ReachesGrows(hash, first, before);
    ReachesGrows(hash, after, last);
    if DecidedBy(hash, before, after, t, outcome, faults) {
      var tried :| TriedBetween(hash, before, tried, after, t)
        && outcome == if CommitRecord in faults then Error
                      else if !Vacant(tried, t) then AlreadyExists
                      else if FinishCommit in faults then Error else Published;
      TriedLater(hash, first, before, tried, after, last, t);
    }
    hide DirsMade, RecordDir;
    assert Obstacle(before, after, t) ==> Obstacle(first, last, t);
  }

  lemma LastIsRecordDir(k: Key)
    ensures k.name != "." ==> RecordDir(k) in DirsMade(k)
  {
    PathInDir(k);
  }

  /** Nobody else writes to an artifact of this name, and an inspected upload has the right size. */
  lemma BegunIsUnwritten(hash: seq<byte> -> string, s: State, t: TaskId)
    requires Here(hash, s, t, Begun)
    ensures Written(s, t).None?
  {
    Viewed(hash, s, t);
    assert ViewOf(s, t).phase == Some(Begun) && ViewOf(s, t).artifact == Written(s, t);
  }

  lemma SizeFits(hash: seq<byte> -> string, s: State, t: TaskId)
    requires Inv(hash, s) && t in s.log.uploads
    ensures |s.log.uploads[t].source| == s.log.uploads[t].record.size
  {
    Viewed(hash, s, t);
  }

  /** How reading a record or an artifact may fail, and how startup may. */
  datatype Read = ReadRecord | ReadLegacy | ReadArtifact

  /**
   What fails at startup: the listing of the records, single entries or pages of the listing of
   the artifacts and removals from it, the listing of the tasks, the put of single tasks.
   */
  datatype Trouble = Trouble(
    records: bool,
    entries: set<nat>,
    pages: set<nat>,
    items: set<(nat, nat)>,
    tasks: bool,
    puts: set<TaskId>)

  /** The removal of orphans meets a failure. */
  ghost predicate Stops(local: bool, pages: seq<seq<Listed>>, trouble: Trouble) {
    if local then 0 in trouble.pages || exists n: nat :: n < |Flatten(pages)| && n in trouble.entries
    else exists p: nat, i: nat :: StopsAt(pages, p, i, trouble.pages, trouble.items)
  }

  /** No running task is among those that cannot be stored. */
  ghost predicate NoneFails(tasks: map<TaskId, Task>, puts: set<TaskId>) {
    forall u :: u in tasks && IsRunning(tasks[u]) ==> u !in puts
  }

  /** What startup leaves of the artifacts if nothing keeps it from removing orphans. */
  ghost predicate OrphansGone(listing: seq<Record>, cutoff: nat,
                              before: map<string, Artifact>, after: map<string, Artifact>) {
    forall a :: a in after <==> a in before && (a in ArtifactsOf(listing) || before[a].modified >= cutoff)
  }

  /** These are the most recent tasks, as many as the cache may hold. */
  ghost predicate MostRecent(tasks: map<TaskId, Task>, kept: set<TaskId>) {
    && kept <= tasks.Keys && |kept| == (if |tasks| <= CACHE_LIMIT then |tasks| else CACHE_LIMIT)
    && forall u, w :: u in kept && w in tasks && w !in kept ==> tasks[u].startedAt >= tasks[w].startedAt
  }

  /** On local disk: a directory is at this place, or a record file above it. */
  predicate Obstructed(s: State, p: Place) {
    s.backend.local && (p in s.disk.dirs || exists n :: 0 < n < |p| && p[..n] in s.disk.records)
  }

  /** Nothing is there, and the way to it is clear. Since records and directories stay, it never was otherwise. */
  predicate NothingAt(s: State, p: Place) {
    p !in s.disk.records && !Obstructed(s, p)
  }

  lemma ObstructedHasNoRecord(hash: seq<byte> -> string, s: State, p: Place)
    requires Inv(hash, s) && Obstructed(s, p)
    ensures p !in s.disk.records
  {
    hide Inv, MayBeDir;
    IsRooted(hash, s);
    if n :| 0 < n < |p| && p[..n] in s.disk.records && p in s.disk.records {
      AboveIsDir(s.disk.records, s.disk.dirs, p, n);
    }
  }

  /** The record at the legacy place of `key`, if any, is another key's: publishing puts none there. */
  lemma LegacyIsForeign(hash: seq<byte> -> string, s: State, key: Key)
    requires Inv(hash, s) && Legacy(key) in s.disk.records
    ensures s.disk.records[Legacy(key)].key != key
  {
    hide RecordPath, Structured, Each;
    var p := Legacy(key);
    IsRooted(hash, s);
    IsBackend(s.backend, s.disk.records, s.disk.dirs);
    CommittedArtifact(hash, s, p);
    WinnerRaces(hash, s, p);
    hide Inv;
    OwnPlaceIsNotLegacy(s.disk.records[p].key);
  }

  lemma OwnPlaceIsNotLegacy(key: Key)
    ensures RecordPath(key) != Legacy(key) && Structured(key) != Legacy(key)
  {
    PathShape(key);
    LegacyPathIff(key, key);
  }

  /** Startup keeps the artifacts that are listed or young, and adds none. */
  ghost predicate KeepsArtifacts(listing: seq<Record>, cutoff: nat,
                                 before: map<string, Artifact>, after: map<string, Artifact>) {
    && (forall a :: a in after ==> a in before && after[a] == before[a])
    && (forall a :: a in before && (a in ArtifactsOf(listing) || before[a].modified >= cutoff) ==> a in after)
  }

  /** A finished task that ended no later than any other one. */
  predicate EndedFirst(cache: map<TaskId, Task>, u: TaskId) {
    u in cache && cache[u].finished && forall w :: w in cache && cache[w].finished ==>
      EndOf(cache[u]) <= EndOf(cache[w])
  }

  /** These leave a full cache: a finished task that ended first, or any task if none is finished. */
  ghost predicate MakesRoom(cache: map<TaskId, Task>, evicted: set<TaskId>) {
    && evicted <= cache.Keys && (|cache| < CACHE_LIMIT ==> evicted == {})
    && (|cache| == CACHE_LIMIT ==> |evicted| == 1)
    && (|cache| >= CACHE_LIMIT && (exists w :: w in cache && cache[w].finished) ==>
          exists u :: u in evicted && EndedFirst(cache, u))
  }

  /** When a finished task ended; this orders the tasks that may leave the cache. */
  function EndOf(task: Task): nat {
    if task.finishedAt.Some? then task.finishedAt.value else task.startedAt
  }

  lemma SurvivorsAreYoung(artifacts: map<string, Artifact>, records: seq<Record>, now: nat)
    ensures forall a :: Survives(a, Times(artifacts), records, now) <==>
              a in artifacts && (a in ArtifactsOf(records) || artifacts[a].modified >= Cutoff(now))
  {
  }

  /** The process and its storage. `workers`, `readers` and `log` say what others are doing and did. */
  class Process {
    const backend: Backend
    const hash: seq<byte> -> string
    var now: nat
    var records: map<Place, Record>
    var dirs: set<Place>
    var artifacts: map<string, Artifact>
    var tasks: map<TaskId, Task>
    var server: Server
    var catalog: seq<Record>
    var cache: map<TaskId, Task>
    var workers: map<TaskId, Phase>
    var readers: map<nat, Record>
    var log: Log

    function Contents(): State
      reads this
    {
      State(backend, now, Disk(records, dirs, artifacts, tasks), Memory(server, catalog, cache, workers, readers), log)
    }

    ghost predicate Valid()
      reads this
    {
      Inv(hash, Contents())
    }

    /** The worker of `t` has come to this phase. */
    ghost predicate At(t: TaskId, phase: Phase)
      reads this
    {
      Valid() && t in log.uploads && server == Up && Get(workers, t) == Some(phase)
    }

    /** Storage and memory before anything was published. */
    constructor (backend: Backend, hash: seq<byte> -> string)
      requires backend == LOCAL || backend == S3
      ensures Valid() && Contents() == Init(backend) && this.backend == backend && this.hash == hash
    {
      this.backend, this.hash, now := backend, hash, 0;
      records, dirs, artifacts, tasks := map[], {}, map[], map[];
      server, catalog, cache, workers, readers := Down, [], map[], map[], map[];
      log := Log(map[], map[], map[], map[], {}, {}, {});
      new;
      InitInv(hash, backend);
    }

    /** Others act: any number of their steps. */
    method Others(t: TaskId, ghost phase: Phase)
      requires At(t, phase)
      modifies this
      ensures At(t, phase) && log.uploads[t] == old(log.uploads[t]) && Reaches(hash, old(Contents()), Contents())
      ensures Written(Contents(), t) == old(Written(Contents(), t)) && old(dirs) <= dirs
      ensures Get(tasks, t) == old(Get(tasks, t))
    {
      hide Inv, Written, Beside, ViewOf, Apply, Run, Reaches;
      ghost var s := Contents();
      var steps: seq<Step> := *;
      var next := Run(hash, Contents(), steps);
      if next.Some? && forall step :: step in steps ==> Foreign(step, t) {
        OthersRun(hash, s, t, steps, next.value);
        Become(next.value);
      } else {
        ReachesItself(hash, s);
      }
    }

    /** Others act while a reader is at work. */
    method OthersWhileReading(reader: nat)
      requires Valid() && server == Up
      modifies this
      ensures Valid() && server == Up && Reaches(hash, old(Contents()), Contents())
      ensures Get(readers, reader) == old(Get(readers, reader)) && Grows(old(Contents()), Contents())
    {
      hide Inv, Apply, Run, Reaches;
      var steps: seq<Step> := *;
      var next := Run(hash, Contents(), steps);
      if next.Some? && forall step :: step in steps ==> Unread(step, reader) {
        UnreadRun(hash, Contents(), reader, steps, next.value);
        Become(next.value);
      } else {
        ReachesItself(hash, Contents());
      }
    }

    /**
     `get_sync`: the record is looked up at its place and then at its legacy place, then its
     artifact is read and checked, while others publish and remove. What was committed before the
     call is found, and is never broken.
     */
    method GetArtifact(reader: nat, key: Key, faults: set<Read>) returns (found: Download)
      requires Valid() && server == Up && reader !in readers
      modifies this
      ensures Valid() && Reaches(hash, old(Contents()), Contents()) && Grows(old(Contents()), Contents())
      ensures !found.Broken? && (found.Refused? <==> !ValidKey(key))
      ensures found.Bytes? ==>
                && found.record.key == key && Known(Contents(), found.record)
                && Verifies(hash, found.record, found.bytes)
      ensures found.Missing? ==> backend.place(key) !in old(records) && Legacy(key) !in old(records)
      ensures found.Mismatch? ==>
                exists p :: p in records && records[p].key != key
                            && (p == backend.place(key) || (p == Legacy(key) && backend.place(key) !in old(records)))
      ensures found.NotAFile? ==>
                || Obstructed(Contents(), backend.place(key))
                || (Obstructed(Contents(), Legacy(key)) && backend.place(key) !in old(records))
      ensures found.NotRead? ==> faults != {}
      ensures found.Bytes? || found.NotRead? || forall r: Record :: r.key == key ==> !Known(old(Contents()), r)
      ensures faults == {} && ValidKey(key) ==>
                NothingAt(Contents(), backend.place(key)) && NothingAt(Contents(), Legacy(key)) ==> found.Missing?
      ensures forall r: Record :: faults == {} && r.key == key && Known(old(Contents()), r) ==>
                found.Bytes? && found.record == r
    {
      hide Inv, Apply, Run, Reaches, ValidKey;
      ghost var start := Contents();
      if !ValidKey(key) {
        ReachesItself(hash, start);
        RecordsAreValid(hash, start);
        return Refused;
      }
      OthersWhileReading(reader);
      ghost var s := Contents();
      var place := backend.place(key);
      if ReadRecord in faults {
        return NotRead;
      }
      if Obstructed(Contents(), place) {
        ObstructedHasNoRecord(hash, s, place);
        return NotAFile;
      }
      if place !in records {
        found := GetLegacy(reader, key, faults);
        ReachesOn(hash, start, s, Contents());
        return;
      }
      if records[place].key != key {
        return Mismatch;
      }
      readers := readers[reader := records[place]];
      ReadStep(hash, start, s, reader, key, Contents());
      found := FetchArtifact(reader, records[place], start, faults);
    }

    /** The record is not at its place: the legacy place is tried. */
    method GetLegacy(reader: nat, key: Key, faults: set<Read>) returns (found: Download)
      requires Valid() && server == Up && reader !in readers
      modifies this
      ensures Valid() && Reaches(hash, old(Contents()), Contents()) && Grows(old(Contents()), Contents())
      ensures found.Missing? || found.Mismatch? || found.NotAFile? || (found.NotRead? && ReadLegacy in faults)
      ensures found.Missing? ==> Legacy(key) !in old(records)
      ensures found.Mismatch? ==> Legacy(key) in records && records[Legacy(key)].key != key
      ensures found.NotAFile? ==> Obstructed(Contents(), Legacy(key))
    {
      hide Inv, Apply, Run, Reaches, Obstructed;
      OthersWhileReading(reader);
      var place := Legacy(key);
      if ReadLegacy in faults {
        found := NotRead;
      } else if Obstructed(Contents(), place) {
        found := NotAFile;
      } else if place !in records {
        found := Missing;
      } else {
        LegacyIsForeign(hash, Contents(), key);
        found := Mismatch;
      }
    }

    /** The artifact of the record that the reader has found. */
    method FetchArtifact(reader: nat, record: Record, ghost start: State, faults: set<Read>)
      returns (found: Download)
      requires Valid() && server == Up && Get(readers, reader) == Some(record) && Reaches(hash, start, Contents())
      modifies this
      ensures Valid() && Reaches(hash, start, Contents()) && Grows(old(Contents()), Contents())
      ensures (found.NotRead? && ReadArtifact in faults) || found.Bytes?
      ensures found.Bytes? ==>
                && found.record == record && Known(Contents(), record) && Verifies(hash, record, found.bytes)
    {
      hide Inv, Apply, Run, Reaches;
      ghost var s := Contents();
      OthersWhileReading(reader);
      ReachesOn(hash, start, s, Contents());
      FoundIsSound(hash, Contents(), reader);
      s := Contents();
      if ReadArtifact in faults {
        found := NotRead;
      } else if record.artifact !in artifacts {
        found := Broken;
      } else if |artifacts[record.artifact].bytes| != record.size
        || hash(artifacts[record.artifact].bytes) != record.sha256 {
        found := Broken;
      } else {
        found := Bytes(record, artifacts[record.artifact].bytes);
      }
      readers := readers - {reader};
      ReadStep(hash, start, s, reader, record.key, Contents());
    }

    method Become(s: State)
      requires s.backend == backend
      modifies this
      ensures Contents() == s
    {
      now, log := s.now, s.log;
      records, dirs, artifacts, tasks := s.disk.records, s.disk.dirs, s.disk.artifacts, s.disk.tasks;
      server, catalog, cache, workers, readers := s.mem.server, s.mem.catalog, s.mem.cache, s.mem.workers,
        s.mem.readers;
    }

    /** An inspected upload gets a worker. Its task and its artifact have fresh names. */
    method AcceptUpload(t: TaskId, upload: Upload)
      requires Valid() && server == Up && t !in log.uploads && upload.record.artifact !in log.owner
      requires Inspected(hash, upload) && upload.startedAt == now
      modifies this
      ensures At(t, Accepted) && log.uploads[t] == upload && Reaches(hash, old(Contents()), Contents())
    {
      hide Inv, Apply, Run, Reaches;
      ghost var s := Contents();
      workers := workers[t := Accepted];
      log := log.(uploads := log.uploads[t := upload], owner := log.owner[upload.record.artifact := t]);
      AcceptStep(hash, s, t, upload, Contents());
    }

    /**
     `create_dir_all`: the directories for the record, one after the other, outermost first. A
     record file in the way ends it, an error too, and a missing directory above a single dot.
     */
    method MakeRecordDir(t: TaskId, faults: set<Operation>) returns (made: bool)
      requires At(t, Begun) && backend.local
      modifies this
      ensures At(t, if made then Located else Returned(Error)) && Reaches(hash, old(Contents()), Contents())
      ensures made ==> RecordDir(log.uploads[t].record.key) in dirs
      ensures log.uploads[t] == old(log.uploads[t]) && Written(Contents(), t) == old(Written(Contents(), t))
      ensures !made ==> Hindered(old(Contents()), Contents(), t, faults)
    {
      hide Inv, ViewOf, Apply, Run, Reaches, Written, RecordDir, DirsMade;
      ghost var start := Contents();
      ReachesItself(hash, start);
      var path := DirsMade(log.uploads[t].record.key);
      for i := 0 to |path|
        invariant At(t, Begun) && Reaches(hash, start, Contents()) && log.uploads[t] == old(log.uploads[t])
        invariant Written(Contents(), t) == old(Written(Contents(), t)) && start.disk.dirs <= dirs
        invariant forall j :: 0 <= j < i ==> path[j] in dirs
      {
        ghost var s := Contents();
        made := MakeDirectory(t, i, faults);
        ReachesOn(hash, start, s, Contents());
        if !made {
          return;
        }
      }
      ghost var s := Contents();
      made := EnterRecordDir(t, faults);
      ReachesOn(hash, start, s, Contents());
    }

    /** One `mkdir`, which also succeeds where the directory is there already. */
    method MakeDirectory(t: TaskId, i: nat, faults: set<Operation>) returns (made: bool)
      requires At(t, Begun) && backend.local && i < |DirsMade(log.uploads[t].record.key)|
      requires forall j :: 0 <= j < i ==> DirsMade(log.uploads[t].record.key)[j] in dirs
      modifies this
      ensures At(t, if made then Begun else Returned(Error)) && Reaches(hash, old(Contents()), Contents())
      ensures log.uploads[t] == old(log.uploads[t]) && Written(Contents(), t) == old(Written(Contents(), t))
      ensures old(dirs) <= dirs
      ensures made ==> DirsMade(log.uploads[t].record.key)[i] in dirs
      ensures !made ==> MakeDir(i) in faults || DirsMade(log.uploads[t].record.key)[i] in records
    {
      hide Inv, ViewOf, Apply, Run, Reaches, ChangeOf, RecordDir, DirsMade, FirstDirs;
      Others(t, Begun);
      ghost var s := Contents();
      var k := log.uploads[t].record.key;
      var dir := DirsMade(k)[i];
      made := MakeDir(i) !in faults && dir !in records;
      if !made {
        FailToMake(t);
        ReachesOn(hash, old(Contents()), s, Contents());
      } else if dir !in dirs {
        dirs := dirs + {dir};
        NothingInTheWay(hash, s, k, i);
        MakeDirectoriesChange(s, t, i + 1, More);
        Taken(hash, old(Contents()), s, t, MakeDirectories(t, i + 1, More), To(Some(Begun)).(made := i + 1));
        assert Contents() == Act(s, t, To(Some(Begun)).(made := i + 1));
      }
    }

    method FailToMake(t: TaskId)
      requires At(t, Begun) && backend.local
      modifies this
      ensures At(t, Returned(Error)) && Reaches(hash, old(Contents()), Contents())
      ensures records == old(records) && dirs == old(dirs) && artifacts == old(artifacts)
      ensures log.uploads == old(log.uploads)
    {
      hide Inv, ViewOf, Apply, Run, Reaches, ChangeOf, RecordDir, DirsMade, FirstDirs;
      ghost var s := Contents();
      workers := workers[t := Returned(Error)];
      log := log.(outcomes := log.outcomes[t := Error]);
      NoDirs(s.log.uploads[t].record.key);
      MakeDirectoriesChange(s, t, 0, NotMade);
      ReachesItself(hash, s);
      Taken(hash, s, s, t, MakeDirectories(t, 0, NotMade), Return(Error));
      assert Contents() == Act(s, t, Return(Error));
    }

    /** All that could be made is there. Only under a single dot the directory may still be missing. */
    method EnterRecordDir(t: TaskId, faults: set<Operation>) returns (made: bool)
      requires At(t, Begun) && backend.local
      requires forall d :: d in DirsMade(log.uploads[t].record.key) ==> d in dirs
      modifies this
      ensures At(t, if made then Located else Returned(Error)) && Reaches(hash, old(Contents()), Contents())
      ensures made ==> RecordDir(log.uploads[t].record.key) in dirs
      ensures log.uploads[t] == old(log.uploads[t]) && Written(Contents(), t) == old(Written(Contents(), t))
      ensures !made ==> EnterDir in faults
                        || (log.uploads[t].record.key.name == "." && RecordDir(log.uploads[t].record.key) !in old(dirs))
    {
      hide Inv, ViewOf, Apply, Run, Reaches, ChangeOf, RecordDir, DirsMade, FirstDirs;
      Others(t, Begun);
      ghost var s := Contents();
      var k := log.uploads[t].record.key;
      LastIsRecordDir(k);
      made := EnterDir !in faults && RecordDir(k) in dirs;
      if made {
        workers := workers[t := Located];
        NothingInTheWay(hash, s, k, |DirsMade(k)|);
        ghost var c := To(Some(Located)).(made := |DirsMade(k)|);
        MakeDirectoriesChange(s, t, |DirsMade(k)|, Made);
        Taken(hash, old(Contents()), s, t, MakeDirectories(t, |DirsMade(k)|, Made), c);
        assert Contents() == Act(s, t, c);
      } else {
        FailToMake(t);
        ReachesOn(hash, old(Contents()), s, Contents());
      }
    }

    /** `create_new`: fails if there is a file of that name. */
    method CreateNew(t: TaskId) returns (created: bool)
      requires At(t, Located) && backend.local
      modifies this
      ensures At(t, if created then Copying else Returned(Error)) && Reaches(hash, old(Contents()), Contents())
      ensures created ==> Written(Contents(), t) == Some([])
      ensures log.uploads[t] == old(log.uploads[t]) && (created <==> old(Written(Contents(), t)).None?)
    {
      hide Inv, ViewOf, Apply, Run, Reaches, ChangeOf, FirstDirs, DirsMade;
      Others(t, Located);
      ghost var s := Contents();
      var name := log.uploads[t].record.artifact;
      created := name !in artifacts;
      if created {
        artifacts := artifacts[name := Artifact([], now)];
        workers := workers[t := Copying];
      } else {
        workers := workers[t := Returned(Error)];
        log := log.(outcomes := log.outcomes[t := Error]);
      }
      CreateChange(s, t);
      ghost var c := if created then To(Some(Copying)).(file := Fill([])) else Return(Error);
      Taken(hash, old(Contents()), s, t, Create(t), c);
      assert Contents() == Act(s, t, c);
    }

    /** Some more bytes of the source reach the artifact. */
    method CopySome(t: TaskId, upto: nat)
      requires At(t, Copying) && Written(Contents(), t).Some?
                && |Written(Contents(), t).value| <= upto <= |log.uploads[t].source|
      modifies this
      ensures At(t, Copying) && Reaches(hash, old(Contents()), Contents()) && log.uploads[t] == old(log.uploads[t])
      ensures Written(Contents(), t) == Some(log.uploads[t].source[..upto])
    {
      hide Inv, ViewOf, Apply, Run, Reaches, ChangeOf, FirstDirs, DirsMade;
      Others(t, Copying);
      ghost var s := Contents();
      var name, bytes := log.uploads[t].record.artifact, log.uploads[t].source[..upto];
      artifacts := artifacts[name := Artifact(bytes, now)];
      workers := workers[t := Copying];
      CopyChange(s, t, upto);
      ghost var c := To(Some(Copying)).(file := Fill(bytes));
      Taken(hash, old(Contents()), s, t, Copy(t, upto), c);
      assert Contents() == Act(s, t, c);
    }

    /** The number of bytes copied must be the size in the record; else the artifact is removed. */
    method CheckCopied(t: TaskId, copied: nat, faults: set<Operation>) returns (right: bool)
      requires At(t, Copying) && Written(Contents(), t).Some?
                && copied == |Written(Contents(), t).value| == |log.uploads[t].source|
      modifies this
      ensures At(t, if right then Copied else Returned(Error)) && Reaches(hash, old(Contents()), Contents())
      ensures right <==> copied == log.uploads[t].record.size
      ensures log.uploads[t] == old(log.uploads[t])
    {
      hide Inv, ViewOf, Apply, Run, Reaches, ChangeOf, FirstDirs, DirsMade;
      Others(t, Copying);
      ghost var s := Contents();
      right := copied == log.uploads[t].record.size;
      var removed := RemoveOwnFile !in faults;
      if right {
        workers := workers[t := Copied];
      } else {
        if removed {
          artifacts := artifacts - {log.uploads[t].record.artifact};
        }
        workers := workers[t := Returned(Error)];
        log := log.(outcomes := log.outcomes[t := Error],
                    leftovers := if removed then log.leftovers else log.leftovers + {t});
      }
      CheckSizeChange(s, t, removed);
      ghost var c := if right then To(Some(Copied))
                     else Return(Error).(file := if removed then Delete else Keep, leaves := !removed);
      Taken(hash, old(Contents()), s, t, CheckSize(t, removed), c);
      assert Contents() == Act(s, t, c);
    }

    /** The record is in a temporary file, which no reader takes for a record. */
    method WriteTemporary(t: TaskId)
      requires At(t, Copied)
      modifies this
      ensures At(t, Prepared) && Reaches(hash, old(Contents()), Contents()) && log.uploads[t] == old(log.uploads[t])
    {
      hide Inv, ViewOf, Apply, Run, Reaches, ChangeOf, FirstDirs, DirsMade;
      Others(t, Copied);
      ghost var s := Contents();
      workers := workers[t := Prepared];
      PrepareChange(s, t);
      Taken(hash, old(Contents()), s, t, Prepare(t), To(Some(Prepared)));
      assert Contents() == Act(s, t, To(Some(Prepared)));
    }

    /** Something fails before the record can be committed. */
    method Abandon(t: TaskId, ghost phase: Phase)
      requires At(t, phase) && (phase.Begun? || phase.Located? || phase.Copying? || phase.Copied?)
      modifies this
      ensures At(t, Returned(Error)) && Reaches(hash, old(Contents()), Contents())
      ensures log.uploads[t] == old(log.uploads[t])
    {
      hide Inv, ViewOf, Apply, Run, Reaches, ChangeOf, FirstDirs, DirsMade;
      Others(t, phase);
      ghost var s := Contents();
      workers := workers[t := Returned(Error)];
      log := log.(outcomes := log.outcomes[t := Error]);
      GiveUpChange(s, t, phase);
      Taken(hash, old(Contents()), s, t, GiveUp(t), Return(Error));
      assert Contents() == Act(s, t, Return(Error));
    }

    /** `hard_link`, and the put with `If-None-Match: *`: commits if the place is free, or fails. */
    method LinkRecord(t: TaskId, faults: set<Operation>) returns (link: Link, ghost tried: State)
      requires At(t, Prepared)
      modifies this
      ensures At(t, match link case Linked => Committed case Exists => Rejected
                case NotLinked => if backend.local then Undoing else Returned(Error))
      ensures Reaches(hash, old(Contents()), Contents()) && log.uploads[t] == old(log.uploads[t])
      ensures TriedBetween(hash, old(Contents()), tried, Contents(), t)
      ensures link == if CommitRecord in faults then NotLinked else if Vacant(tried, t) then Linked else Exists
    {
      hide Inv, ViewOf, Apply, Run, Reaches, ChangeOf, FirstDirs, DirsMade;
      Others(t, Prepared);
      ghost var s := Contents();
      tried := s;
      var place, fails := backend.place(log.uploads[t].record.key), CommitRecord in faults;
      link := if fails then NotLinked else if place in records || place in dirs then Exists else Linked;
      ghost var c: Change;
      match link {
      case Linked =>
        records := records[place := log.uploads[t].record];
        workers := workers[t := Committed];
        log := log.(winner := log.winner[place := t]);
        c := To(Some(Committed)).(commits := true);
      case Exists =>
        workers := workers[t := Rejected];
        c := To(Some(Rejected));
      case NotLinked =>
        if backend.local {
          workers := workers[t := Undoing];
          c := To(Some(Undoing));
        } else {
          workers := workers[t := Returned(Error)];
          log := log.(outcomes := log.outcomes[t := Error]);
          c := Return(Error);
        }
      }
      CommitChange(s, t);
      CommitErrorChange(s, t);
      Taken(hash, old(Contents()), s, t, if fails then CommitError(t) else Commit(t), c);
      assert Contents() == Act(s, t, c);
      ReachesItself(hash, s);
      Taken(hash, s, s, t, if fails then CommitError(t) else Commit(t), c);
    }

    /** The artifact is removed, or that fails, which is ignored. */
    method RemoveOwn(t: TaskId, phase: Phase, faults: set<Operation>)
      requires At(t, phase) && (phase.Rejected? || phase.Undoing?)
      modifies this
      ensures At(t, Returned(if phase.Rejected? then AlreadyExists else Error))
                && Reaches(hash, old(Contents()), Contents()) && log.uploads[t] == old(log.uploads[t])
      ensures RemoveOwnFile !in faults ==> Written(Contents(), t).None?
    {
      hide Inv, ViewOf, Apply, Run, Reaches, ChangeOf, FirstDirs, DirsMade;
      Others(t, phase);
      ghost var s := Contents();
      var removed, outcome := RemoveOwnFile !in faults, if phase.Rejected? then AlreadyExists else Error;
      if removed {
        artifacts := artifacts - {log.uploads[t].record.artifact};
      }
      workers := workers[t := Returned(outcome)];
      log := log.(outcomes := log.outcomes[t := outcome],
                  leftovers := if removed then log.leftovers else log.leftovers + {t});
      RemoveChange(s, t, phase, removed);
      ghost var c := Return(outcome).(file := if removed then Delete else Keep, leaves := !removed);
      Taken(hash, old(Contents()), s, t, RemoveArtifact(t, removed), c);
      assert Contents() == Act(s, t, c);
    }

    /** The directories are synced, or the response arrives. If not, the caller gets an error. */
    method Conclude(t: TaskId, faults: set<Operation>) returns (done: bool)
      requires At(t, Committed)
      modifies this
      ensures At(t, Returned(if done then Published else Error)) && Reaches(hash, old(Contents()), Contents())
      ensures log.uploads[t] == old(log.uploads[t]) && (done <==> FinishCommit !in faults)
    {
      hide Inv, ViewOf, Apply, Run, Reaches, ChangeOf, FirstDirs, DirsMade;
      Others(t, Committed);
      ghost var s := Contents();
      done := FinishCommit !in faults;
      if done {
        workers := workers[t := Returned(Published)];
        log := log.(outcomes := log.outcomes[t := Published]);
      } else {
        workers := workers[t := Returned(Error)];
        var place := backend.place(log.uploads[t].record.key);
        log := log.(outcomes := log.outcomes[t := Error], unlisted := log.unlisted + {place});
      }
      AnswerChange(s, t);
      ghost var c := if done then Return(Published) else Return(Error).(unlists := true);
      Taken(hash, old(Contents()), s, t, if done then Acknowledge(t) else LoseReply(t), c);
      assert Contents() == Act(s, t, c);
    }

    /** The put of the artifact. Without a reply it may have taken effect. */
    method PutArtifact(t: TaskId, faults: set<Operation>) returns (stored: bool)
      requires At(t, Begun) && !backend.local
      modifies this
      ensures At(t, if stored then Prepared else Returned(Error)) && Reaches(hash, old(Contents()), Contents())
      ensures log.uploads[t] == old(log.uploads[t]) && (stored <==> PutObject !in faults)
    {
      hide Inv, ViewOf, Apply, Run, Reaches, ChangeOf, FirstDirs, DirsMade;
      Others(t, Begun);
      ghost var s := Contents();
      var effect: bool := *;
      stored := PutObject !in faults;
      effect := effect || stored;
      if effect {
        artifacts := artifacts[log.uploads[t].record.artifact := Artifact(log.uploads[t].source, now)];
      }
      if stored {
        workers := workers[t := Prepared];
      } else {
        workers := workers[t := Returned(Error)];
        log := log.(outcomes := log.outcomes[t := Error]);
      }
      StoreChange(s, t, effect, stored);
      ghost var c := (if stored then To(Some(Prepared)) else Return(Error)).(
        file := if effect then Fill(s.log.uploads[t].source) else Keep);
      Taken(hash, old(Contents()), s, t, StoreObject(t, effect, stored), c);
      assert Contents() == Act(s, t, c);
    }

    /** All of the source is copied, or an error occurs. */
    method CopyAll(t: TaskId, faults: set<Operation>) returns (complete: bool)
      requires At(t, Copying) && Written(Contents(), t) == Some([])
      modifies this
      ensures At(t, Copying) && Reaches(hash, old(Contents()), Contents()) && log.uploads[t] == old(log.uploads[t])
      ensures complete ==> Written(Contents(), t) == Some(log.uploads[t].source)
      ensures complete <==> CopySource !in faults
    {
      hide Inv, ViewOf, Apply, Run, Reaches, Written;
      var source, copied := log.uploads[t].source, 0;
      ghost var start := Contents();
      ReachesItself(hash, start);
      var limit: nat := *;
      complete := CopySource !in faults;
      while copied < |source| && (complete || copied < limit)
        invariant At(t, Copying) && Reaches(hash, start, Contents()) && log.uploads[t] == old(log.uploads[t])
        invariant copied <= |source| && Written(Contents(), t) == Some(source[..copied])
        decreases |source| - copied
      {
        var upto: nat := *;
        var next := if copied < upto <= |source| then upto else copied + 1;
        ghost var s := Contents();
        CopySome(t, next);
        ReachesOn(hash, start, s, Contents());
        copied := next;
      }
      assert source[..|source|] == source;
    }

    /**
     `publish_file` on local disk, a run of the machine with any steps of others in between. It
     fails only if an operation fails or something is in the way.
     */
    method PublishFileSync(t: TaskId, faults: set<Operation>) returns (outcome: Outcome)
      requires At(t, Begun) && backend.local
      modifies this
      ensures At(t, Returned(outcome)) && Reaches(hash, old(Contents()), Contents())
      ensures Means(Contents(), t, outcome) && Explained(hash, old(Contents()), Contents(), t, outcome, faults)
    {
      hide Inv, ViewOf, Apply, Run, Reaches, Means, Written, Hindered, DecidedBy;
      ghost var start := Contents();
      if Encode in faults {
        Abandon(t, Begun);
        ResultMeans(hash, Contents(), t, Error);
        ErrorExplained(hash, start, Contents(), t, faults, Encode);
        return Error;
      }
      var made := MakeRecordDir(t, faults);
      if !made {
        ResultMeans(hash, Contents(), t, Error);
        return Error;
      }
      outcome := PublishLocated(t, start, faults);
    }

    /** The rest of it, once the directory of the record is there. */
    method PublishLocated(t: TaskId, ghost start: State, faults: set<Operation>) returns (outcome: Outcome)
      requires At(t, Located) && backend.local && Here(hash, start, t, Begun) && Reaches(hash, start, Contents())
      requires log.uploads[t] == start.log.uploads[t] && Written(Contents(), t) == Written(start, t)
      modifies this
      ensures At(t, Returned(outcome)) && Reaches(hash, start, Contents())
      ensures Means(Contents(), t, outcome) && Explained(hash, start, Contents(), t, outcome, faults)
    {
      hide Inv, ViewOf, Apply, Run, Reaches, Means, Written, Explained;
      ghost var s := Contents();
      if OpenSource in faults || CreateArtifact in faults {
        Abandon(t, Located);
        ReachesOn(hash, start, s, Contents());
        ResultMeans(hash, Contents(), t, Error);
        ErrorExplained(hash, start, Contents(), t, faults, if OpenSource in faults then OpenSource else CreateArtifact);
        return Error;
      }
      var created := CreateNew(t);
      ReachesOn(hash, start, s, Contents());
      if !created {
        ResultMeans(hash, Contents(), t, Error);
        BegunIsUnwritten(hash, start, t);
        return Error;
      }
      s := Contents();
      var complete := CopyAll(t, faults);
      ReachesOn(hash, start, s, Contents());
      outcome := Finish(t, start, complete, faults);
    }

    /** The rest of `publish_file` on local disk, once the copy has ended. */
    method Finish(t: TaskId, ghost start: State, complete: bool, faults: set<Operation>) returns (outcome: Outcome)
      requires At(t, Copying) && backend.local && Reaches(hash, start, Contents())
      requires complete ==> Written(Contents(), t) == Some(log.uploads[t].source)
      requires complete <==> CopySource !in faults
      modifies this
      ensures At(t, Returned(outcome)) && Reaches(hash, start, Contents()) && Means(Contents(), t, outcome)
      ensures Explained(hash, start, Contents(), t, outcome, faults)
    {
      hide Inv, ViewOf, Apply, Run, Reaches, Means, Written, Explained;
      ghost var s := Contents();
      if !complete {
        Abandon(t, Copying);
        ReachesOn(hash, start, s, Contents());
        ResultMeans(hash, Contents(), t, Error);
        ErrorExplained(hash, start, Contents(), t, faults, CopySource);
        return Error;
      }
      var right := CheckCopied(t, |log.uploads[t].source|, faults);
      ReachesOn(hash, start, s, Contents());
      if !right {
        ResultMeans(hash, Contents(), t, Error);
        SizeFits(hash, Contents(), t);
        return Error;
      }
      s := Contents();
      if WriteRecord in faults {
        Abandon(t, Copied);
        ReachesOn(hash, start, s, Contents());
        ResultMeans(hash, Contents(), t, Error);
        ErrorExplained(hash, start, Contents(), t, faults, WriteRecord);
        return Error;
      }
      WriteTemporary(t);
      ReachesOn(hash, start, s, Contents());
      outcome := Settle(t, start, faults);
    }

    /** From the attempt to commit to the result, for either kind of storage. */
    method Settle(t: TaskId, ghost start: State, faults: set<Operation>) returns (outcome: Outcome)
      requires At(t, Prepared) && Reaches(hash, start, Contents())
      modifies this
      ensures At(t, Returned(outcome)) && Reaches(hash, start, Contents()) && Means(Contents(), t, outcome)
      ensures Explained(hash, start, Contents(), t, outcome, faults)
    {
      hide Inv, ViewOf, Apply, Run, Reaches, Means, Written, Explained, TriedBetween, Vacant;
      ghost var s := Contents();
      var link;
      ghost var tried;
      link, tried := LinkRecord(t, faults);
      ReachesOn(hash, start, s, Contents());
      ghost var linked := Contents();
      ReachesItself(hash, linked);
      match link {
      case Linked =>
        var done := Conclude(t, faults);
        outcome := if done then Published else Error;
      case Exists =>
        RemoveOwn(t, Rejected, faults);
        outcome := AlreadyExists;
      case NotLinked =>
        if backend.local {
          RemoveOwn(t, Undoing, faults);
        }
        outcome := Error;
      }
      ReachesOn(hash, start, linked, Contents());
      TriedLater(hash, start, s, tried, linked, Contents(), t);
      ResultMeans(hash, Contents(), t, outcome);
      DecisionExplained(hash, start, Contents(), t, outcome, faults);
    }

    /** `publish_file` on S3: only a refused record put removes the artifact. */
    method PublishObject(t: TaskId, faults: set<Operation>) returns (outcome: Outcome)
      requires At(t, Begun) && !backend.local
      modifies this
      ensures At(t, Returned(outcome)) && Reaches(hash, old(Contents()), Contents())
      ensures Means(Contents(), t, outcome) && Explained(hash, old(Contents()), Contents(), t, outcome, faults)
    {
      hide Inv, ViewOf, Apply, Run, Reaches, Means, Written, Explained;
      ghost var start := Contents();
      if Encode in faults || OpenSource in faults {
        Abandon(t, Begun);
        ResultMeans(hash, Contents(), t, Error);
        ErrorExplained(hash, start, Contents(), t, faults, if Encode in faults then Encode else OpenSource);
        return Error;
      }
      var stored := PutArtifact(t, faults);
      if !stored {
        ResultMeans(hash, Contents(), t, Error);
        ErrorExplained(hash, start, Contents(), t, faults, PutObject);
        return Error;
      }
      outcome := Settle(t, start, faults);
    }

    /** The first `put_task`. Without a reply it may have taken effect. */
    method PutRunningTask(t: TaskId, faults: set<Operation>) returns (stored: bool)
      requires At(t, Accepted)
      modifies this
      ensures stored ==> At(t, Begun) && Get(tasks, t) == Some(RunningTask(log.uploads[t]))
      ensures stored <==> StoreRunning !in faults
      ensures Valid() && t in log.uploads && Reaches(hash, old(Contents()), Contents()) && (!stored ==> t !in workers)
    {
      hide Inv, ViewOf, Apply, Run, Reaches, ChangeOf, FirstDirs, DirsMade;
      Others(t, Accepted);
      ghost var s := Contents();
      var effect: bool := *;
      stored := StoreRunning !in faults;
      effect := effect || stored;
      if effect {
        tasks := tasks[t := RunningTask(log.uploads[t])];
      }
      if stored {
        workers := workers[t := Begun];
      } else {
        workers := workers - {t};
      }
      PutRunningChange(s, t, effect, stored);
      ghost var c := To(if stored then Some(Begun) else None).(
        task := if effect then Some(RunningTask(s.log.uploads[t])) else None);
      Taken(hash, old(Contents()), s, t, PutRunning(t, effect, stored), c);
      assert Contents() == Act(s, t, c);
    }

    /** The time is taken, and a published record joins the catalog. */
    method PushRecord(t: TaskId, outcome: Outcome) returns (at: nat)
      requires At(t, Returned(outcome))
      modifies this
      ensures At(t, Pushed(outcome, at)) && Reaches(hash, old(Contents()), Contents())
      ensures outcome.Published? ==> log.uploads[t].record in catalog
      ensures log.uploads[t] == old(log.uploads[t]) && Written(Contents(), t) == old(Written(Contents(), t))
    {
      hide Inv, ViewOf, Apply, Run, Reaches, ChangeOf, FirstDirs, DirsMade;
      Others(t, Returned(outcome));
      ghost var s := Contents();
      at := now;
      if outcome.Published? {
        catalog := catalog + [log.uploads[t].record];
        assert catalog[|s.mem.catalog|] == log.uploads[t].record;
      }
      workers := workers[t := Pushed(outcome, at)];
      PushChange(s, t, outcome);
      ghost var c := To(Some(Pushed(outcome, at))).(lists := outcome.Published?);
      Taken(hash, old(Contents()), s, t, PushCatalog(t), c);
      assert Contents() == Act(s, t, c);
    }

    /** The final `put_task`; if it fails that is only logged. */
    method PutFinalTask(t: TaskId, outcome: Outcome, at: nat, faults: set<Operation>)
      requires At(t, Pushed(outcome, at))
      modifies this
      ensures At(t, Persisted(outcome, at)) && Reaches(hash, old(Contents()), Contents())
                && log.uploads[t] == old(log.uploads[t]) && Written(Contents(), t) == old(Written(Contents(), t))
      ensures StoreFinal !in faults ==> Get(tasks, t) == Some(FinalTask(log.uploads[t], outcome, at))
    {
      hide Inv, ViewOf, Apply, Run, Reaches, ChangeOf, FirstDirs, DirsMade;
      Others(t, Pushed(outcome, at));
      ghost var s := Contents();
      var effect: bool := *;
      effect := effect || StoreFinal !in faults;
      if effect {
        tasks := tasks[t := FinalTask(log.uploads[t], outcome, at)];
      }
      workers := workers[t := Persisted(outcome, at)];
      PutFinalChange(s, t, outcome, at, effect);
      ghost var c := To(Some(Persisted(outcome, at))).(
        task := if effect then Some(FinalTask(s.log.uploads[t], outcome, at)) else None);
      Taken(hash, old(Contents()), s, t, PutFinal(t, effect), c);
      assert Contents() == Act(s, t, c);
    }

    /** A finished task in the cache that ended no later than any other one. */
    method OldestFinished() returns (oldest: Option<TaskId>)
      ensures oldest.None? ==> forall u :: u in cache ==> !cache[u].finished
      ensures oldest.Some? ==> EndedFirst(cache, oldest.value)
    {
      oldest := None;
      var pending := cache.Keys;
      while pending != {}
        invariant pending <= cache.Keys
        invariant oldest.None? ==> forall u :: u in cache && u !in pending ==> !cache[u].finished
        invariant oldest.Some? ==> oldest.value in cache && cache[oldest.value].finished
        invariant oldest.Some? ==>
                    forall u :: u in cache && u !in pending && cache[u].finished ==>
                      EndOf(cache[oldest.value]) <= EndOf(cache[u])
        decreases |pending|
      {
        var u :| u in pending;
        if cache[u].finished && (oldest.None? || EndOf(cache[u]) < EndOf(cache[oldest.value])) {
          oldest := Some(u);
        }
        pending := pending - {u};
      }
    }

    /** Who has to leave the cache before a task is remembered. */
    method ChooseEvicted() returns (evicted: set<TaskId>)
      ensures MakesRoom(cache, evicted)
    {
      evicted := {};
      if |cache| >= CACHE_LIMIT {
        var oldest := OldestFinished();
        if oldest.Some? {
          evicted := {oldest.value};
          assert (cache - evicted).Keys == cache.Keys - {oldest.value};
        }
      }
      if |cache - evicted| >= CACHE_LIMIT {
        var any :| any in cache - evicted;
        assert (cache - evicted - {any}).Keys == (cache - evicted).Keys - {any};
        assert cache - (evicted + {any}) == cache - evicted - {any};
        evicted := evicted + {any};
      }
    }

    /** `remember_task`: in a full cache the task that ended first makes room, or else any. */
    method RememberTask(t: TaskId, outcome: Outcome, at: nat) returns (ghost before: map<TaskId, Task>)
      requires At(t, Persisted(outcome, at))
      modifies this
      ensures Valid() && t in log.uploads && Reaches(hash, old(Contents()), Contents())
                && log.uploads[t] == old(log.uploads[t]) && server == Up
                && Written(Contents(), t) == old(Written(Contents(), t)) && Get(tasks, t) == old(Get(tasks, t))
      ensures t !in workers && t in cache && cache[t] == FinalTask(log.uploads[t], outcome, at)
      ensures Get(log.outcomes, t) == Some(outcome)
      ensures exists evicted :: MakesRoom(before, evicted)
                                && cache == (before - evicted)[t := FinalTask(log.uploads[t], outcome, at)]
    {
      hide Inv, ViewOf, Apply, Run, Reaches, ChangeOf, FirstDirs, DirsMade, FinalTask, ChangedView, PlaceAt, MakesRoom;
      Others(t, Persisted(outcome, at));
      ghost var s := Contents();
      before := cache;
      var evicted := ChooseEvicted();
      var task := FinalTask(log.uploads[t], outcome, at);
      cache := (cache - evicted)[t := task];
      workers := workers - {t};
      if outcome.Published? {
        log := log.(seenCompleted := log.seenCompleted + {t});
      }
      RememberChange(s, t, outcome, at, evicted);
      ghost var c := To(None).(cached := Some(task), evicted := evicted, sees := outcome.Published?);
      AnswerKnown(hash, s, t, outcome, at);
      Taken(hash, old(Contents()), s, t, Remember(t, evicted), c);
      assert Contents() == Act(s, t, c);
    }

    /**
     The worker of an accepted upload, from the first `put_task` to the response. Whatever
     others do in between, its result is true at the end and has a cause, and the cached task
     agrees with it. So does the stored one, unless it could not be stored.
     */
    method Work(t: TaskId, faults: set<Operation>) returns (result: Option<Outcome>)
      requires At(t, Accepted)
      modifies this
      ensures Valid() && t in log.uploads && t !in workers && Reaches(hash, old(Contents()), Contents())
      ensures result.None? <==> StoreRunning in faults
      ensures result.Some? ==>
                && Means(Contents(), t, result.value)
                && Explained(hash, old(Contents()), Contents(), t, result.value, faults)
                && t in cache && cache[t].finished && (cache[t].state == Completed <==> result.value.Published?)
                && (StoreFinal !in faults ==> Get(tasks, t) == Some(cache[t]))
    {
      hide Inv, ViewOf, Apply, Run, Reaches, Means, Explained, Written;
      ghost var start := Contents();
      var stored := PutRunningTask(t, faults);
      if !stored {
        return None;
      }
      ghost var s := Contents();
      var outcome: Outcome;
      if backend.local {
        outcome := PublishFileSync(t, faults);
      } else {
        outcome := PublishObject(t, faults);
      }
      ghost var returned := Contents();
      ReachesOn(hash, start, s, returned);
      Report(t, outcome, returned, faults);
      ReachesOn(hash, start, returned, Contents());
      ExplainedLater(hash, start, s, returned, Contents(), t, outcome, faults);
      result := Some(outcome);
    }

    method Report(t: TaskId, outcome: Outcome, ghost start: State, faults: set<Operation>)
      requires At(t, Returned(outcome)) && start == Contents()
      modifies this
      ensures Valid() && t in log.uploads && t !in workers && Reaches(hash, start, Contents())
      ensures Means(Contents(), t, outcome) && Written(Contents(), t) == old(Written(Contents(), t))
      ensures t in cache && cache[t].finished && (cache[t].state == Completed <==> outcome.Published?)
      ensures StoreFinal !in faults ==> Get(tasks, t) == Some(cache[t])
    {
      hide Inv, ViewOf, Apply, Run, Reaches, Means, Written;
      ghost var s := Contents();
      var at := PushRecord(t, outcome);
      s := Contents();
      PutFinalTask(t, outcome, at, faults);
      ReachesOn(hash, start, s, Contents());
      s := Contents();
      ghost var before := RememberTask(t, outcome, at);
      ReachesOn(hash, start, s, Contents());
      AnswerMeans(hash, Contents(), t, outcome);
    }

    // Startup. Nobody else is there yet.

    /**
     `reconcile`, on local disk over the entries of a directory and on S3 over pages: orphans go
     until a request or a removal fails. Startup continues either way.
     */
    method RemoveOrphans(pages: seq<seq<Listed>>, trouble: Trouble) returns (complete: bool)
      requires Valid() && server == Loading && pages != [] && Right(Flatten(pages), Times(artifacts))
      modifies `artifacts
      ensures Valid() && Reaches(hash, old(Contents()), Contents())
      ensures forall a :: a in artifacts ==> a in old(artifacts) && artifacts[a] == old(artifacts)[a]
      ensures forall a :: a in old(artifacts) && a !in artifacts ==>
                a !in ArtifactsOf(catalog) && old(artifacts)[a].modified < Cutoff(now)
      ensures complete ==> artifacts == old(artifacts) - Orphans(Flatten(pages), ArtifactsOf(catalog), Cutoff(now))
      ensures complete && Storage.Shows(Flatten(pages), Times(old(artifacts))) ==>
                OrphansGone(catalog, Cutoff(now), old(artifacts), artifacts)
      ensures !complete ==> Stops(backend.local, pages, trouble)
    {
      hide Inv, Apply, Run, Reaches, ArtifactsOf, Cutoff, Orphans, Flatten, Right, Storage.Shows;
      ghost var start := Contents();
      var store := new ArtifactStore(Times(artifacts));
      ghost var gone;
      complete, gone := Reconcile(store, pages, trouble);
      artifacts := map a | a in artifacts && a in store.artifacts :: artifacts[a];
      assert artifacts == start.disk.artifacts - gone;
      ReconcileRuns(hash, start, Flatten(pages), gone);
      assert Contents() == Without(start, gone);
      if complete && Storage.Shows(Flatten(pages), Times(start.disk.artifacts)) {
        SurvivorsAreYoung(start.disk.artifacts, catalog, now);
        assert forall a :: a in artifacts <==> a in start.disk.artifacts && a in store.artifacts;
      }
    }

    /** The loop of the backend, which may meet failures anywhere. `gone` is what it removed. */
    method Reconcile(store: ArtifactStore, pages: seq<seq<Listed>>, trouble: Trouble)
      returns (complete: bool, ghost gone: set<string>)
      requires pages != []
      modifies store
      ensures gone <= Orphans(Flatten(pages), ArtifactsOf(catalog), Cutoff(now))
      ensures complete ==> gone == Orphans(Flatten(pages), ArtifactsOf(catalog), Cutoff(now))
      ensures store.artifacts == old(store.artifacts) - gone
      ensures complete && Storage.Shows(Flatten(pages), old(store.artifacts)) ==>
                forall n :: n in store.artifacts <==> Survives(n, old(store.artifacts), catalog, now)
      ensures !complete ==> Stops(backend.local, pages, trouble)
    {
      hide Orphans, ArtifactsOf, Cutoff, Flatten, Storage.Shows, Survives;
      if backend.local && 0 in trouble.pages {
        complete, gone := false, {};
      } else if backend.local {
        var items := Flatten(pages);
        complete := store.Reconcile(catalog, items, now, trouble.entries);
        gone := Orphans(items, ArtifactsOf(catalog), Cutoff(now));
        if !complete {
          ghost var n: nat :| n < |items| && n in trouble.entries
            && store.artifacts == old(store.artifacts) - Orphans(items[..n], ArtifactsOf(catalog), Cutoff(now));
          gone := Orphans(items[..n], ArtifactsOf(catalog), Cutoff(now));
          OrphansConcat(items[..n], items[n..], ArtifactsOf(catalog), Cutoff(now));
          assert items[..n] + items[n..] == items;
        }
      } else {
        complete := store.ReconcilePages(catalog, pages, now, trouble.pages, trouble.items);
        gone := Orphans(Flatten(pages), ArtifactsOf(catalog), Cutoff(now));
        if !complete {
          ghost var p: nat, i: nat :| StopsAt(pages, p, i, trouble.pages, trouble.items)
            && store.artifacts == old(store.artifacts) - OrphansBefore(pages, p, i, ArtifactsOf(catalog), Cutoff(now))
            && OrphansBefore(pages, p, i, ArtifactsOf(catalog), Cutoff(now))
               <= Orphans(Flatten(pages), ArtifactsOf(catalog), Cutoff(now));
          gone := OrphansBefore(pages, p, i, ArtifactsOf(catalog), Cutoff(now));
        }
      }
    }

    /** `reconcile_tasks`: each running task is settled by what the catalog says, until a write fails. */
    method SettleTasks(puts: set<TaskId>) returns (complete: bool)
      requires Valid() && server == Settling
      modifies `tasks, `now
      ensures Valid() && Reaches(hash, old(Contents()), Contents()) && now >= old(now)
      ensures complete ==> AllSettled(old(tasks), tasks, catalog, old(now), now)
      ensures SomeSettled(old(tasks), tasks, catalog, old(now), now)
      ensures complete <==> NoneFails(old(tasks), puts)
    {
      hide Inv, Apply, Run, Reaches, SettledDuring;
      ghost var start := Contents();
      ReachesItself(hash, start);
      complete := true;
      var pending := tasks.Keys;
      while complete && pending != {}
        invariant Valid() && Reaches(hash, start, Contents()) && now >= start.now
        invariant tasks.Keys == start.disk.tasks.Keys && pending <= tasks.Keys
        invariant forall u :: u in pending ==> tasks[u] == start.disk.tasks[u]
        invariant complete ==> forall u :: u in tasks && u !in pending ==>
                    SettledDuring(start.disk.tasks[u], tasks[u], catalog, start.now, now)
        invariant SomeSettled(start.disk.tasks, tasks, catalog, start.now, now)
        invariant complete ==> forall u :: u in tasks && u !in pending ==>
                    IsRunning(start.disk.tasks[u]) ==> u !in puts
        invariant !complete ==> !NoneFails(start.disk.tasks, puts)
        decreases |pending|, complete
      {
        var u :| u in pending;
        ghost var s := Contents();
        complete := SettleOne(u, puts);
        ReachesOn(hash, start, s, Contents());
        LaterSettled(start.disk.tasks, s.disk.tasks, catalog, start.now, s.now, now);
        if SettledDuring(s.disk.tasks[u], tasks[u], catalog, s.now, now) {
          SettledLonger(s.disk.tasks[u], tasks[u], catalog, s.now, now, start.now, now);
        }
        pending := pending - {u};
      }
    }

    /** The task is put back settled if it was running. Time passes. A failed write may have taken effect. */
    method SettleOne(u: TaskId, puts: set<TaskId>) returns (stored: bool)
      requires Valid() && server == Settling && u in tasks
      modifies `tasks, `now
      ensures Valid() && Reaches(hash, old(Contents()), Contents()) && now >= old(now)
      ensures tasks.Keys == old(tasks.Keys) && tasks == old(tasks)[u := tasks[u]]
      ensures SettledDuring(old(tasks[u]), tasks[u], catalog, old(now), now) || (!stored && tasks[u] == old(tasks[u]))
      ensures stored <==> !(IsRunning(old(tasks[u])) && u in puts)
    {
      hide Inv, Apply, Run, Reaches, Settled, IsRunning;
      ghost var start := Contents();
      ReachesItself(hash, start);
      var passed: int := *;
      if passed > 0 {
        now := now + passed;
        TickStep(hash, start, start, passed, Contents());
      }
      ghost var later := Contents();
      stored := true;
      if IsRunning(tasks[u]) {
        var effect: bool := *;
        stored := u !in puts;
        effect := effect || stored;
        if effect {
          SettledChanges(tasks[u], catalog, now);
          tasks := tasks[u := Settled(tasks[u], catalog, now)];
          SettleStep(hash, start, later, u, Contents());
        }
      }
    }

    /** All persisted tasks, in some order. */
    method LoadTasks() returns (loaded: seq<(TaskId, Task)>)
      ensures AllLoaded(tasks, loaded)
    {
      loaded := [];
      var pending := tasks.Keys;
      while pending != {}
        invariant pending <= tasks.Keys && |loaded| + |pending| == |tasks|
        invariant forall x :: x in loaded ==> x.0 in tasks && x.1 == tasks[x.0]
        invariant forall u :: u in tasks && u !in pending ==> (u, tasks[u]) in loaded
        invariant forall x :: x in loaded ==> x.0 !in pending
        invariant forall x :: multiset(loaded)[x] <= 1
        decreases |pending|
      {
        var u :| u in pending;
        loaded := loaded + [(u, tasks[u])];
        pending := pending - {u};
      }
    }

    /** The most recent of the persisted tasks, which the cache starts with. */
    method RecentTasks() returns (kept: set<TaskId>)
      ensures MostRecent(tasks, kept)
    {
      hide SortBy, Preorder, Ordered, FirstOf, AllLoaded;
      var loaded := LoadTasks();
      var sorted := SortBy(loaded, LaterFirst);
      LaterFirstIsPreorder();
      SortBySorts(loaded, LaterFirst);
      StillAllLoaded(tasks, loaded, sorted);
      LoadedOnce(tasks, sorted);
      kept := FirstTasks(sorted);
      FirstAreLatest(tasks, sorted, kept);
    }

    /** Those that are left after `truncate`. */
    method FirstTasks(sorted: seq<(TaskId, Task)>) returns (kept: set<TaskId>)
      requires forall i, j :: 0 <= i < j < |sorted| ==> sorted[i].0 != sorted[j].0
      ensures FirstOf(sorted, kept) && |kept| == if |sorted| <= CACHE_LIMIT then |sorted| else CACHE_LIMIT
    {
      kept := {};
      var i := 0;
      while i < |sorted| && i < CACHE_LIMIT
        invariant i <= |sorted| && i <= CACHE_LIMIT && |kept| == i
        invariant forall k :: 0 <= k < i ==> sorted[k].0 in kept
        invariant forall u :: u in kept ==> exists k :: 0 <= k < i && sorted[k].0 == u
      {
        kept := kept + {sorted[i].0};
        i := i + 1;
      }
    }

    /** The process ends, and with it all that is in its memory. */
    method Exit()
      requires Valid()
      modifies this
      ensures Valid() && server == Down && Reaches(hash, old(Contents()), Contents())
      ensures records == old(records) && artifacts == old(artifacts) && tasks == old(tasks) && now == old(now)
    {
      hide Inv, Apply, Run, Reaches;
      ghost var s := Contents();
      server, catalog, cache, workers, readers := Down, [], map[], map[], map[];
      log := log.(unlisted := {});
      CrashStep(hash, s, Contents());
    }

    /** The last part of startup: the tasks are settled and requests are served, or the process ends. */
    method SettleAndServe(trouble: Trouble) returns (served: bool)
      requires Valid() && server == Settling
      modifies this
      ensures Valid() && Reaches(hash, old(Contents()), Contents())
      ensures records == old(records) && artifacts == old(artifacts) && now >= old(now)
      ensures server == if served then Up else Down
      ensures served <==> !trouble.tasks && NoneFails(old(tasks), trouble.puts)
      ensures served ==> catalog == old(catalog) && AllSettled(old(tasks), tasks, catalog, old(now), now)
      ensures served ==> MostRecent(tasks, cache.Keys) && forall u :: u in cache ==> cache[u] == tasks[u]
      ensures SomeSettled(old(tasks), tasks, old(catalog), old(now), now)
    {
      hide Inv, Apply, Run, Reaches, AllSettled, SomeSettled, NoneFails, MostRecent;
      ghost var start := Contents();
      ReachesItself(hash, start);
      served := !trouble.tasks;
      NoneSettled(tasks, catalog, now);
      if served {
        served := SettleTasks(trouble.puts);
      }
      ghost var s := Contents();
      if served {
        var kept := RecentTasks();
        KeptAreTasks(tasks, kept);
        cache := map u | u in tasks && u in kept :: tasks[u];
        assert cache.Keys == kept;
        server := Up;
        NoneRuns(old(tasks), tasks, catalog, old(now), now);
        ServeStep(hash, start, s, kept, Contents());
      } else {
        Exit();
        ReachesOn(hash, start, s, Contents());
      }
    }

    /**
     Startup, as far as storage goes: records, orphans, tasks; then requests are served. If the
     records or the tasks cannot be listed or a task cannot be stored, the process ends instead.
     `pages` is what the listing of the artifacts shows.
     */
    method Start(listing: Option<seq<Record>>, pages: seq<seq<Listed>>, trouble: Trouble)
      returns (served: bool, reconciled: bool)
      requires Valid() && server == Down && (listing.Some? ==> Lists(listing.value, Contents()))
      requires pages != [] && Right(Flatten(pages), Times(artifacts))
      modifies this
      ensures Valid() && Reaches(hash, old(Contents()), Contents()) && records == old(records)
      ensures server == if served then Up else Down
      ensures served <==> listing.Some? && !trouble.tasks && NoneFails(old(tasks), trouble.puts)
      ensures served ==> listing == Some(catalog) && AllSettled(old(tasks), tasks, catalog, old(now), now)
      ensures served ==> MostRecent(tasks, cache.Keys) && forall u :: u in cache ==> cache[u] == tasks[u]
      ensures listing.Some? ==> SomeSettled(old(tasks), tasks, listing.value, old(now), now)
      ensures listing.Some? ==> KeepsArtifacts(listing.value, Cutoff(old(now)), old(artifacts), artifacts)
      ensures listing.Some? && !reconciled ==> Stops(backend.local, pages, trouble)
      ensures listing.Some? && reconciled && Storage.Shows(Flatten(pages), Times(old(artifacts))) ==>
                OrphansGone(listing.value, Cutoff(old(now)), old(artifacts), artifacts)
      ensures listing.None? ==> Contents() == old(Contents()) && !reconciled
    {
      hide Inv, Apply, Run, Reaches, ArtifactsOf, Lists, AllSettled, SomeSettled, Orphans, Flatten, Right, NoneFails,
        MostRecent, OrphansGone, Stops, Storage.Shows;
      ghost var start := Contents();
      if listing.None? {
        ReachesItself(hash, start);
        return false, false;
      }
      catalog := listing.value;
      server := Loading;
      LoadStep(hash, start, listing.value, Contents());
      ghost var s := Contents();
      reconciled := RemoveOrphans(pages, trouble);
      ReachesOn(hash, start, s, Contents());
      s := Contents();
      server := Settling;
      EndStep(hash, start, s, Contents());
      s := Contents();
      served := SettleAndServe(trouble);
      ReachesOn(hash, start, s, Contents());
    }

    /** Startup on local disk: the record files are read, leftover temporary files are not. A read may fail. */
    method StartFromFiles(root: seq<Node>, parse: seq<byte> -> Option<Record>, items: seq<Listed>, trouble: Trouble)
      returns (served: bool, reconciled: bool)
      requires Valid() && server == Down && backend == LOCAL && TreeHolds(root, records, parse)
      requires Right(items, Times(artifacts))
      modifies this
      ensures Valid() && Reaches(hash, old(Contents()), Contents()) && records == old(records)
      ensures server == if served then Up else Down
      ensures served <==> !trouble.records && !trouble.tasks && NoneFails(old(tasks), trouble.puts)
      ensures served ==> AllSettled(old(tasks), tasks, catalog, old(now), now)
      ensures served ==> forall r :: r in catalog <==> Known(Contents(), r)
      ensures !reconciled ==> trouble.records || Stops(true, [items], trouble)
      ensures reconciled && Storage.Shows(items, Times(old(artifacts))) ==>
                ReferencedOrYoung(old(Contents()), Contents())
    {
      hide Inv, Apply, Run, Reaches, TreeHolds, AllReadable, RecordsIn, AllSettled, Right, NoneFails, OrphansGone,
        Stops, Storage.Shows, ReferencedOrYoung;
      ghost var s := Contents();
      TreeYieldsRecords(root, records, parse);
      var listing := ReadRecords(root, parse);
      TreeIsListed(s, root, parse, listing.value);
      ghost var all := listing.value;
      OnePage(items);
      if trouble.records {
        listing := None;
      }
      served, reconciled := Start(listing, [items], trouble);
      if listing.Some? && reconciled && Storage.Shows(items, Times(s.disk.artifacts)) {
        ListedIsReferenced(s, all, Contents());
      }
    }

    /** Startup on S3: the pages of the record listing are read, or a request fails. */
    method StartFromObjects(objects: seq<Option<seq<Object>>>, ghost bucket: map<string, seq<byte>>,
                            ghost prefix: string,
                            parse: seq<byte> -> Option<Record>, pages: seq<seq<Listed>>, trouble: Trouble)
      returns (served: bool, reconciled: bool)
      requires Valid() && server == Down && backend == S3 && BucketHolds(bucket, prefix, records, parse)
      requires objects != [] && ((forall p :: 0 <= p < |objects| ==> objects[p].Some?) ==>
                                   ShowsBucket(ObjectsOf(objects), bucket, prefix))
      requires pages != [] && Right(Flatten(pages), Times(artifacts))
      modifies this
      ensures Valid() && Reaches(hash, old(Contents()), Contents()) && records == old(records)
      ensures server == if served then Up else Down
      ensures served <==>
                && AllRead(objects, parse)
                && !trouble.tasks && NoneFails(old(tasks), trouble.puts)
      ensures served ==> AllSettled(old(tasks), tasks, catalog, old(now), now)
      ensures served ==> forall r :: r in catalog <==> Known(Contents(), r)
      ensures !reconciled ==> !AllRead(objects, parse) || Stops(false, pages, trouble)
      ensures reconciled && Storage.Shows(Flatten(pages), Times(old(artifacts))) ==>
                ReferencedOrYoung(old(Contents()), Contents())
    {
      hide Inv, Apply, Run, Reaches, BucketHolds, ShowsBucket, AllSettled, Right, Flatten, AllFetched, RecordsOf,
        NoneFails, OrphansGone, Stops, Storage.Shows, ReferencedOrYoung;
      ghost var s := Contents();
      RecordsAreValid(hash, s);
      var listing := ReadObjects(objects, parse);
      if listing.Some? {
        ObjectsAreListed(s, prefix, bucket, ObjectsOf(objects), parse);
      }
      served, reconciled := Start(listing, pages, trouble);
      if listing.Some? && reconciled && Storage.Shows(Flatten(pages), Times(s.disk.artifacts)) {
        ListedIsReferenced(s, listing.value, Contents());
      }
    }
  }

  /** No request for a page fails, and no object is too large or unreadable. */
  ghost predicate AllRead(objects: seq<Option<seq<Object>>>, parse: seq<byte> -> Option<Record>) {
    (forall p :: 0 <= p < |objects| ==> objects[p].Some?) && AllFetched(ObjectsOf(objects), parse)
  }

  /** Exactly those artifacts are left that a committed record names or that are within the grace time. */
  ghost predicate ReferencedOrYoung(before: State, after: State) {
    forall a :: a in after.disk.artifacts <==>
      && a in before.disk.artifacts
      && ((exists p :: p in before.disk.records && before.disk.records[p].artifact == a)
          || before.disk.artifacts[a].modified >= Cutoff(before.now))
  }

  lemma ListedIsReferenced(s: State, listing: seq<Record>, s': State)
    requires Lists(listing, s) && OrphansGone(listing, Cutoff(s.now), s.disk.artifacts, s'.disk.artifacts)
    ensures ReferencedOrYoung(s, s')
  {
    forall a ensures a in ArtifactsOf(listing) <==> exists p :: p in s.disk.records && s.disk.records[p].artifact == a {
      if a in ArtifactsOf(listing) {
        var i :| 0 <= i < |listing| && listing[i].artifact == a;
        assert listing[i] in listing && Known(s, listing[i]);
      }
      if p :| p in s.disk.records && s.disk.records[p].artifact == a {
        var i :| 0 <= i < |listing| && listing[i] == s.disk.records[p];
      }
    }
  }

  lemma KeptAreTasks(tasks: map<TaskId, Task>, kept: set<TaskId>)
    requires MostRecent(tasks, kept)
    ensures kept <= tasks.Keys
  {
  }

  lemma OnePage(items: seq<Listed>)
    ensures Flatten([items]) == items
  {
    assert [items][..0] == [];
  }
}
