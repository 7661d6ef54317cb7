/**
 What every step of the publication protocol keeps. Nearly all of it is about one upload, so
 it is stated on views; a step changes the view of its own upload and hardly touches others.
 */
module PublicationInvariant {
  import opened Wrappers
  import opened Sequences
  import opened Keys
  import opened Storage
  import opened Publication

  predicate Finished(phase: Phase) {
    phase.Returned? || phase.Pushed? || phase.Persisted?
  }

  /** A committed record names a complete artifact. */
  predicate Stored(v: View) {
    v.won ==> v.place == Some(v.upload.record) && v.artifact == Some(v.upload.source)
  }

  /** The artifact of an upload that is not committed yet. */
  predicate Staged(v: View, phase: Phase) {
    match phase
    case Accepted => v.artifact.None? && v.task.None?
    case Begun => v.artifact.None?
    case Located => v.artifact.None? && v.housed
    case Copying => (v.local ==> v.housed) && v.artifact.Some? && IsPrefix(v.artifact.value, v.upload.source)
    case Copied => (v.local ==> v.housed) && v.artifact == Some(v.upload.source)
    case Prepared => (v.local ==> v.housed) && v.artifact == Some(v.upload.source)
    case Rejected => v.place.Some? || v.blocked
    case Undoing => v.local
    case _ => true
  }

  /** A worker knows whether it committed, and has the artifact its phase says. */
  predicate Working(v: View) {
    v.phase.Some? ==>
      var phase := v.phase.value;
      && v.server == Up && Staged(v, phase)
      && if Finished(phase) then v.answer == Some(phase.outcome)
         else v.answer.None? && (phase.Committed? <==> v.won)
  }

  /** What `publish_file` returned is true: its record is committed, or another or a directory is there. */
  predicate Truthful(v: View) {
    && (v.answer == Some(Published) ==> v.won)
    && (v.answer == Some(AlreadyExists) ==> (v.place.Some? || v.blocked) && !v.won)
  }

  /** A committed record has the key and digest of the upload. */
  predicate Evidence(v: View) {
    && v.place.Some? && v.place.value.key == v.upload.record.key
    && v.place.value.sha256 == v.upload.record.sha256
  }

  predicate TaskOk(v: View, task: Task) {
    && task.(state := Running, finished := false, finishedAt := None) == RunningTask(v.upload)
    && !task.state.Other? && (task.finished <==> task.state != Running)
    && (task.state == Completed ==> Evidence(v))
  }

  /** Persisted and cached tasks are true to their upload, and `completed` has evidence. */
  predicate Told(v: View) {
    && (v.task.Some? ==> TaskOk(v, v.task.value))
    && (v.cached.Some? ==> TaskOk(v, v.cached.value) && v.cached.value.finished)
    && (v.seenCompleted ==> Evidence(v))
  }

  predicate Says(task: Option<Task>, state: TaskState) {
    task.Some? && task.value.state == state
  }

  /** Storage, cache, worker and past observations never disagree on one task. */
  predicate Agreed(v: View) {
    && (v.seenCompleted ==> !Says(v.task, Failed) && !Says(v.cached, Failed))
    && (Says(v.cached, Completed) ==> !Says(v.task, Failed))
    && (Says(v.cached, Failed) ==> !Says(v.task, Completed))
    && (v.phase.Some? ==>
          && v.cached.None?
          && (!(v.phase.value.Persisted? && v.phase.value.outcome.Published?) ==>
                !v.seenCompleted && !Says(v.task, Completed))
          && (!(v.phase.value.Persisted? && !v.phase.value.outcome.Published?) ==> !Says(v.task, Failed)))
  }

  /** The record is committed but its worker has yet to put it in the catalog. */
  predicate Pending(v: View) {
    v.phase == Some(Committed) || v.phase == Some(Returned(Published))
  }

  /** What the catalog lacks is pending or was reported as an error. */
  predicate Catalogs(v: View) {
    && (v.keyListed ==> v.place.Some?)
    && (Pending(v) ==> v.won && !v.keyListed)
    && (v.server != Down && v.won ==> v.listed || v.unlisted || Pending(v))
  }

  /** A refused publisher leaves no artifact, unless it could not remove it. */
  predicate LeavesNothing(v: View) {
    v.answer == Some(AlreadyExists) && !v.leftover ==> v.artifact.None?
  }

  ghost predicate ViewInv(hash: seq<byte> -> string, v: View) {
    && Inspected(hash, v.upload)
    && Stored(v) && Working(v) && Truthful(v) && Told(v) && Agreed(v) && Catalogs(v) && LeavesNothing(v)
  }

  /** Nothing in the state belongs to no upload, and artifact names are not shared. */
  ghost predicate Accounted(s: State) {
    && s.mem.workers.Keys <= s.log.uploads.Keys && s.log.outcomes.Keys <= s.log.uploads.Keys
    && s.disk.tasks.Keys <= s.log.uploads.Keys && s.mem.cache.Keys <= s.log.uploads.Keys
    && s.log.seenCompleted <= s.log.uploads.Keys && s.disk.records.Keys == s.log.winner.Keys
    && (forall p :: p in s.log.winner ==> s.log.winner[p] in s.log.uploads && PlaceAt(s, s.log.winner[p]) == p)
    && (forall a :: a in s.disk.artifacts ==> a in s.log.owner)
    && (forall t :: t in s.log.uploads ==> Name(s, t) in s.log.owner && s.log.owner[Name(s, t)] == t)
    && (forall a :: a in s.log.owner ==> s.log.owner[a] in s.log.uploads && Name(s, s.log.owner[a]) == a)
  }

  ghost predicate Catalogued(s: State) {
    DistinctKeys(s.mem.catalog) && forall r :: r in s.mem.catalog ==> Known(s, r)
  }

  ghost predicate Reading(s: State) {
    forall r :: r in s.mem.readers ==> Known(s, s.mem.readers[r])
  }

  predicate Idle(s: State) {
    && (s.mem.server != Up ==>
          s.mem.workers == map[] && s.mem.cache == map[] && s.mem.readers == map[] && s.log.unlisted == {})
    && (s.mem.server == Down ==> s.mem.catalog == [])
  }

  /**
   On local disk the records are files in directories: every directory is in another one or at
   the top, and comes from a publication; no record is where a directory is.
   */
  ghost predicate Rooted(backend: Backend, records: map<Place, Record>, dirs: set<Place>) {
    && (backend == LOCAL || backend == S3)
    && (!backend.local ==> dirs == {})
    && (forall d :: d in dirs ==> d != [] && MayBeDir(d) && (|d| > 1 ==> d[..|d| - 1] in dirs))
    && (forall p :: p in records ==> p != [] && p !in dirs && (backend.local ==> p[..|p| - 1] in dirs))
  }

  ghost predicate Shared(s: State) {
    Rooted(s.backend, s.disk.records, s.disk.dirs) && Accounted(s) && Catalogued(s) && Reading(s) && Idle(s)
  }

  ghost predicate Each(hash: seq<byte> -> string, s: State) {
    forall t :: t in s.log.uploads ==> ViewInv(hash, ViewOf(s, t))
  }

  ghost predicate Inv(hash: seq<byte> -> string, s: State) {
    Shared(s) && Each(hash, s)
  }

  lemma Viewed(hash: seq<byte> -> string, s: State, t: TaskId)
    requires Inv(hash, s) && t in s.log.uploads
    ensures ViewInv(hash, ViewOf(s, t))
  {
  }

  // How a change looks from its own upload and from the others.

  function ChangedView(v: View, c: Change): View {
    View(v.local, v.upload, v.server,
         if c.commits then Some(v.upload.record) else v.place,
         v.won || c.commits,
         v.blocked,
         v.housed || (c.made == |DirsMade(v.upload.record.key)| && v.upload.record.key.name != "."),
         v.clear,
         match c.file case Keep => v.artifact case Fill(bytes) => Some(bytes) case Delete => None,
         c.phase,
         if c.answer.Some? then c.answer else v.answer,
         if c.task.Some? then c.task else v.task,
         if c.cached.Some? then c.cached else v.cached,
         v.seenCompleted || c.sees,
         v.listed || c.lists,
         v.keyListed || c.lists,
         v.unlisted || c.unlists,
         v.leftover || c.leaves)
  }

  /** What may happen to an upload while others act. */
  predicate Beside(v: View, v': View) {
    && v'.local == v.local && v'.upload == v.upload && v'.server == v.server && v'.won == v.won
    && v'.artifact == v.artifact
    && v'.phase == v.phase && v'.answer == v.answer && v'.task == v.task && v'.seenCompleted == v.seenCompleted
    && (v'.place == v.place || (v.place.None? && v'.place.Some?))
    && (v'.cached == v.cached || v'.cached.None?)
    && (v.listed ==> v'.listed) && (v.unlisted ==> v'.unlisted) && v'.leftover == v.leftover
    && (v.blocked ==> v'.blocked) && (v.housed ==> v'.housed)
    && (Pending(v) ==> v'.keyListed == v.keyListed) && (v'.keyListed ==> v.keyListed || v'.place.Some?)
  }

  lemma BesideKeeps(hash: seq<byte> -> string, v: View, v': View)
    requires ViewInv(hash, v) && Beside(v, v')
    ensures ViewInv(hash, v')
  {
  }

  /** The place of a record is deeper than the directories made for it. */
  lemma PlaceIsNoOwnDir(backend: Backend, k: Key)
    requires backend == LOCAL || backend == S3
    ensures backend.place(k) !in DirsMade(k)
  {
    PathInDir(k);
    PathShape(k);
    assert |Structured(k)| == 4;
  }

  lemma HousedIff(k: Key, made: nat)
    requires made <= |DirsMade(k)|
    ensures RecordDir(k) in FirstDirs(k, made) <==> made == |DirsMade(k)| && k.name != "."
  {
    PathInDir(k);
  }

  lemma ActsOnOwnPlace(s: State, t: TaskId, c: Change)
    requires t in s.log.uploads && (s.backend == LOCAL || s.backend == S3)
    requires c.made <= |DirsMade(s.log.uploads[t].record.key)|
    ensures var v, v' := ViewOf(s, t), ViewOf(Act(s, t, c), t);
            v'.blocked == v.blocked && v'.clear == v.clear && v'.housed == ChangedView(v, c).housed
  {
    var k := s.log.uploads[t].record.key;
    PlaceIsNoOwnDir(s.backend, k);
    HousedIff(k, c.made);
    hide DirsMade, RecordDir;
  }

  lemma ActsOnOwn(s: State, t: TaskId, c: Change)
    requires t in s.log.uploads && (s.backend == LOCAL || s.backend == S3)
    requires c.made <= |DirsMade(s.log.uploads[t].record.key)|
    ensures ViewOf(Act(s, t, c), t) == ChangedView(ViewOf(s, t), c)
  {
    hide DirsMade, RecordDir, FirstDirs;
    ActsOnOwnPlace(s, t, c);
    var s', r := Act(s, t, c), s.log.uploads[t].record;
    if c.lists {
      assert s'.mem.catalog[|s.mem.catalog|] == r;
      assert forall x :: x in s.mem.catalog ==> x in s'.mem.catalog;
    }
  }

  lemma OthersMemory(s: State, t: TaskId, c: Change, u: TaskId)
    requires t in s.log.uploads && u in s.log.uploads && u != t
    ensures var s' := Act(s, t, c);
            && s'.backend == s.backend && s'.log.uploads == s.log.uploads && s'.mem.server == s.mem.server
            && Get(s'.mem.workers, u) == Get(s.mem.workers, u) && Get(s'.log.outcomes, u) == Get(s.log.outcomes, u)
            && Get(s'.disk.tasks, u) == Get(s.disk.tasks, u)
            && (Get(s'.mem.cache, u) == Get(s.mem.cache, u) || Get(s'.mem.cache, u).None?)
            && (u in s'.log.seenCompleted <==> u in s.log.seenCompleted)
            && (u in s'.log.leftovers <==> u in s.log.leftovers)
            && s.log.unlisted <= s'.log.unlisted
  {
  }

  lemma OthersPlaces(s: State, t: TaskId, c: Change, u: TaskId)
    requires Accounted(s) && t in s.log.uploads && u in s.log.uploads && u != t
    requires c.commits ==> PlaceAt(s, t) !in s.disk.records
    ensures var s', p := Act(s, t, c), PlaceAt(s, u);
            && (Get(s'.disk.records, p) == Get(s.disk.records, p) || (p !in s.disk.records && p in s'.disk.records))
            && (Won(s', u) <==> Won(s, u)) && s.disk.dirs <= s'.disk.dirs
            && Get(s'.disk.artifacts, Name(s, u)) == Get(s.disk.artifacts, Name(s, u))
            && (p in s.disk.records ==> p in s'.disk.records)
  {
    assert Name(s, t) != Name(s, u);
  }

  lemma OthersCatalog(s: State, t: TaskId, c: Change, u: TaskId)
    requires Accounted(s) && t in s.log.uploads && u in s.log.uploads && u != t
    requires c.lists ==> Won(s, t)
    ensures var s', r := Act(s, t, c), s.log.uploads[u].record;
            && (r in s.mem.catalog ==> r in s'.mem.catalog)
            && ((exists x :: x in s'.mem.catalog && x.key == r.key) ==>
                  (exists x :: x in s.mem.catalog && x.key == r.key) || PlaceAt(s, u) in s'.disk.records)
            && ((exists x :: x in s.mem.catalog && x.key == r.key) ==>
              exists x :: x in s'.mem.catalog && x.key == r.key)
            && (Won(s, u) ==> ((exists x :: x in s'.mem.catalog && x.key == r.key) <==>
                                 exists x :: x in s.mem.catalog && x.key == r.key))
  {
    var s', r := Act(s, t, c), s.log.uploads[t].record;
    if c.lists {
      assert forall x :: x in s'.mem.catalog <==> x in s.mem.catalog || x == r;
    } else {
      assert s'.mem.catalog == s.mem.catalog;
    }
    hide Act;
  }

  lemma ActsBesideOthers(hash: seq<byte> -> string, s: State, t: TaskId, c: Change, u: TaskId)
    requires Accounted(s) && t in s.log.uploads && u in s.log.uploads && u != t
    requires c.commits ==> PlaceAt(s, t) !in s.disk.records
    requires c.lists ==> Won(s, t)
    requires Pending(ViewOf(s, u)) ==> Won(s, u)
    ensures Beside(ViewOf(s, u), ViewOf(Act(s, t, c), u))
  {
    hide Act, Accounted, DirsMade, RecordDir;
    OthersMemory(s, t, c, u);
    OthersPlaces(s, t, c, u);
    OthersCatalog(s, t, c, u);
  }

  lemma FirstDirsAreRooted(k: Key, made: nat)
    requires ValidKey(k)
    ensures forall d :: d in FirstDirs(k, made) ==>
              d in DirsMade(k) && d != [] && MayBeDir(d) && (|d| > 1 ==> d[..|d| - 1] in FirstDirs(k, made))
  {
    hide RecordDir;
    forall d | d in FirstDirs(k, made)
      ensures d in DirsMade(k) && d != [] && MayBeDir(d) && (|d| > 1 ==> d[..|d| - 1] in FirstDirs(k, made))
    {
      var i :| 0 <= i < made && i < |DirsMade(k)| && DirsMade(k)[i] == d;
      if i > 0 {
        assert DirsMade(k)[i - 1] == d[..|d| - 1];
      }
    }
  }

  lemma MoreDirsRooted(backend: Backend, records: map<Place, Record>, dirs: set<Place>, made: set<Place>)
    requires Rooted(backend, records, dirs) && (made != {} ==> backend.local)
    requires forall d :: d in made ==>
               d !in records && d != [] && MayBeDir(d) && (|d| > 1 ==> d[..|d| - 1] in made)
    ensures Rooted(backend, records, dirs + made)
  {
    hide MayBeDir;
  }

  lemma MoreRecordsRooted(backend: Backend, records: map<Place, Record>, dirs: set<Place>, p: Place, record: Record)
    requires Rooted(backend, records, dirs)
    requires p != [] && p !in dirs && (backend.local ==> p[..|p| - 1] in dirs)
    ensures Rooted(backend, records[p := record], dirs)
  {
    hide MayBeDir;
  }

  lemma ActKeepsRooted(s: State, t: TaskId, c: Change)
    requires Rooted(s.backend, s.disk.records, s.disk.dirs) && t in s.log.uploads
    requires ValidKey(s.log.uploads[t].record.key) && Fits(ViewOf(s, t), c)
    ensures var s' := Act(s, t, c); Rooted(s'.backend, s'.disk.records, s'.disk.dirs)
  {
    hide DirsMade, RecordDir, MayBeDir, FirstDirs, RecordPath, Structured, ValidKey, Rooted;
    var k, p, record := s.log.uploads[t].record.key, PlaceAt(s, t), s.log.uploads[t].record;
    var made := FirstDirs(k, c.made);
    FirstDirsAreRooted(k, c.made);
    NoDirs(k);
    IsBackend(s.backend, s.disk.records, s.disk.dirs);
    PlaceIsNoOwnDir(s.backend, k);
    PlaceIsInDir(s.backend, k);
    MoreDirsRooted(s.backend, s.disk.records, s.disk.dirs, made);
    if c.commits {
      MoreRecordsRooted(s.backend, s.disk.records, s.disk.dirs + made, p, record);
    }
  }

  lemma NoDirs(k: Key)
    ensures FirstDirs(k, 0) == {}
  {
  }

  lemma IsBackend(backend: Backend, records: map<Place, Record>, dirs: set<Place>)
    requires Rooted(backend, records, dirs)
    ensures backend == LOCAL || backend == S3
  {
  }

  lemma PlaceIsInDir(backend: Backend, k: Key)
    requires backend == LOCAL || backend == S3
    ensures var p := backend.place(k); p != [] && (backend.local ==> p[..|p| - 1] == RecordDir(k))
  {
    PathInDir(k);
  }

  lemma ActKeepsAccounted(s: State, t: TaskId, c: Change)
    requires Accounted(s) && t in s.log.uploads
    requires c.commits ==> PlaceAt(s, t) !in s.disk.records
    ensures Accounted(Act(s, t, c))
  {
  }

  lemma ActKeepsCatalogued(s: State, t: TaskId, c: Change)
    requires Catalogued(s) && Reading(s) && t in s.log.uploads
    requires c.commits ==> PlaceAt(s, t) !in s.disk.records
    requires c.lists ==> Known(s, s.log.uploads[t].record) && !ViewOf(s, t).keyListed
    ensures Catalogued(Act(s, t, c)) && Reading(Act(s, t, c))
  {
    var s', r := Act(s, t, c), s.log.uploads[t].record;
    assert forall x :: Known(s, x) ==> Known(s', x);
    if c.lists {
      assert forall x :: x in s'.mem.catalog <==> x in s.mem.catalog || x == r;
    }
  }

  /** What a change must respect so that the shared parts stay right. */
  predicate Fits(v: View, c: Change) {
    && (c.commits ==> v.place.None? && !v.blocked && (v.local ==> v.housed))
    && (c.made > 0 ==> v.local && v.clear && c.made <= |DirsMade(v.upload.record.key)|)
    && (c.lists ==> v.server == Up && v.won && !v.keyListed)
    && (c.phase.Some? || c.cached.Some? || c.unlists ==> v.server == Up)
  }

  lemma FitsIsBounded(hash: seq<byte> -> string, s: State, t: TaskId, c: Change)
    requires Inv(hash, s) && t in s.log.uploads && Fits(ViewOf(s, t), c)
    ensures (s.backend == LOCAL || s.backend == S3) && c.made <= |DirsMade(s.log.uploads[t].record.key)|
  {
    assert Rooted(s.backend, s.disk.records, s.disk.dirs);
    hide Inv, DirsMade;
  }

  lemma ActKeepsInv(hash: seq<byte> -> string, s: State, t: TaskId, c: Change)
    requires Inv(hash, s) && t in s.log.uploads && Fits(ViewOf(s, t), c)
    requires ViewInv(hash, ChangedView(ViewOf(s, t), c))
    ensures Inv(hash, Act(s, t, c))
  {
    hide Act, ViewInv, ChangedView;
    ActKeepsShared(hash, s, t, c);
    forall u | u in Act(s, t, c).log.uploads ensures ViewInv(hash, ViewOf(Act(s, t, c), u)) {
      ActKeepsView(hash, s, t, c, u);
    }
  }

  lemma ActKeepsShared(hash: seq<byte> -> string, s: State, t: TaskId, c: Change)
    requires Inv(hash, s) && t in s.log.uploads && Fits(ViewOf(s, t), c)
    ensures Shared(Act(s, t, c))
  {
    hide Each, Accounted, Catalogued, Reading, Rooted, FirstDirs, DirsMade, RecordDir, MayBeDir, ValidKey;
    OwnView(hash, s, t);
    ActKeepsRooted(s, t, c);
    ActKeepsAccounted(s, t, c);
    ActKeepsCatalogued(s, t, c);
  }

  lemma OwnView(hash: seq<byte> -> string, s: State, t: TaskId)
    requires Each(hash, s) && t in s.log.uploads
    ensures ValidKey(s.log.uploads[t].record.key)
    ensures ViewOf(s, t).won ==> Known(s, s.log.uploads[t].record)
  {
    assert ViewInv(hash, ViewOf(s, t));
  }

  lemma ActKeepsView(hash: seq<byte> -> string, s: State, t: TaskId, c: Change, u: TaskId)
    requires Inv(hash, s) && t in s.log.uploads && Fits(ViewOf(s, t), c)
    requires ViewInv(hash, ChangedView(ViewOf(s, t), c))
    requires u in Act(s, t, c).log.uploads
    ensures ViewInv(hash, ViewOf(Act(s, t, c), u))
  {
    if u == t {
      ActsOnOwn(s, t, c);
    } else {
      assert ViewInv(hash, ViewOf(s, u));
      ActsBesideOthers(hash, s, t, c, u);
      BesideKeeps(hash, ViewOf(s, u), ViewOf(Act(s, t, c), u));
    }
  }

  predicate Starts(step: Step) { step.PutRunning? || step.MakeDirectories? || step.Create? || step.StoreObject? }

  predicate Fills(step: Step) { step.Copy? || step.CheckSize? || step.Prepare? }

  predicate Decides(step: Step) { step.Commit? || step.CommitError? || step.RemoveArtifact? }

  predicate Answers(step: Step) { step.Acknowledge? || step.LoseReply? || step.GiveUp? }

  predicate Reports(step: Step) { step.PushCatalog? || step.PutFinal? || step.Remember? }

  predicate Polls(step: Step) { step.PollCache? || step.PollStorage? }

  /** The steps that begin a publication keep what is known of its upload. */
  lemma StartKeeps(hash: seq<byte> -> string, s: State, t: TaskId, step: Step, c: Change)
    requires t in s.log.uploads && ViewInv(hash, ViewOf(s, t))
    requires ChangeOf(s, t, step) == Some(c) && Starts(step)
    ensures Fits(ViewOf(s, t), c) && ViewInv(hash, ChangedView(ViewOf(s, t), c))
  {
    hide ViewOf, ViewInv, ChangedView, Fits, DoPutRunning, DoMakeDirectories, DoCreate, DoStoreObject;
    var v := ViewOf(s, t);
    match step
    case PutRunning(_, effect, reply) => PutRunningKeeps(hash, v, effect, reply, c);
    case MakeDirectories(_, made, result) => MakeDirectoriesKeeps(hash, v, made, result, c);
    case Create(_) => CreateKeeps(hash, v, c);
    case StoreObject(_, effect, reply) => StoreObjectKeeps(hash, v, effect, reply, c);
  }

  lemma PutRunningKeeps(hash: seq<byte> -> string, v: View, effect: bool, reply: bool, c: Change)
    requires ViewInv(hash, v) && DoPutRunning(v, effect, reply) == Some(c)
    ensures Fits(v, c) && ViewInv(hash, ChangedView(v, c))
  {
    hide DirsMade;
  }

  lemma MakeDirectoriesKeeps(hash: seq<byte> -> string, v: View, made: nat, result: Making, c: Change)
    requires ViewInv(hash, v) && DoMakeDirectories(v, made, result) == Some(c)
    ensures Fits(v, c) && ViewInv(hash, ChangedView(v, c))
  {
    hide DirsMade;
  }

  lemma CreateKeeps(hash: seq<byte> -> string, v: View, c: Change)
    requires ViewInv(hash, v) && DoCreate(v) == Some(c)
    ensures Fits(v, c) && ViewInv(hash, ChangedView(v, c))
  {
    hide DirsMade;
  }

  lemma StoreObjectKeeps(hash: seq<byte> -> string, v: View, effect: bool, reply: bool, c: Change)
    requires ViewInv(hash, v) && DoStoreObject(v, effect, reply) == Some(c)
    ensures Fits(v, c) && ViewInv(hash, ChangedView(v, c))
  {
    hide DirsMade;
  }

  /** So do those that fill the artifact. */
  lemma FillKeeps(hash: seq<byte> -> string, s: State, t: TaskId, step: Step, c: Change)
    requires t in s.log.uploads && ViewInv(hash, ViewOf(s, t))
    requires ChangeOf(s, t, step) == Some(c) && Fills(step)
    ensures Fits(ViewOf(s, t), c) && ViewInv(hash, ChangedView(ViewOf(s, t), c))
  {
    hide ViewOf, DoPushCatalog, DoPutFinal, DoRemember, DoPollCache, DoPollStorage, DoSettleTask;
    if step.CheckSize? {
      var v := ViewOf(s, t);
      assert v.artifact.value == v.upload.source[..|v.upload.source|] == v.upload.source;
    }
  }

  /** So do the commit, its failures and the retreat of a loser. */
  lemma DecisionKeeps(hash: seq<byte> -> string, s: State, t: TaskId, step: Step, c: Change)
    requires t in s.log.uploads && ViewInv(hash, ViewOf(s, t))
    requires ChangeOf(s, t, step) == Some(c) && Decides(step)
    ensures Fits(ViewOf(s, t), c) && ViewInv(hash, ChangedView(ViewOf(s, t), c))
  {
    hide ViewOf, ViewInv, ChangedView, Fits, DoCommit, DoCommitError, DoRemoveArtifact;
    var v := ViewOf(s, t);
    match step
    case Commit(_) => CommitKeeps(hash, v, c);
    case CommitError(_) => CommitErrorKeeps(hash, v, c);
    case RemoveArtifact(_, removed) => RemoveArtifactKeeps(hash, v, removed, c);
  }

  lemma CommitKeeps(hash: seq<byte> -> string, v: View, c: Change)
    requires ViewInv(hash, v) && DoCommit(v) == Some(c)
    ensures Fits(v, c) && ViewInv(hash, ChangedView(v, c))
  {
    hide DirsMade;
  }

  lemma CommitErrorKeeps(hash: seq<byte> -> string, v: View, c: Change)
    requires ViewInv(hash, v) && DoCommitError(v) == Some(c)
    ensures Fits(v, c) && ViewInv(hash, ChangedView(v, c))
  {
    hide DirsMade;
  }

  lemma RemoveArtifactKeeps(hash: seq<byte> -> string, v: View, removed: bool, c: Change)
    requires ViewInv(hash, v) && DoRemoveArtifact(v, removed) == Some(c)
    ensures Fits(v, c) && ViewInv(hash, ChangedView(v, c))
  {
    hide DirsMade;
  }

  /** So do the other ways in which publish_file returns. */
  lemma AnswerKeeps(hash: seq<byte> -> string, s: State, t: TaskId, step: Step, c: Change)
    requires t in s.log.uploads && ViewInv(hash, ViewOf(s, t))
    requires ChangeOf(s, t, step) == Some(c) && Answers(step)
    ensures Fits(ViewOf(s, t), c) && ViewInv(hash, ChangedView(ViewOf(s, t), c))
  {
    hide ViewOf, ViewInv, ChangedView, Fits, DoAcknowledge, DoLoseReply, DoGiveUp;
    var v := ViewOf(s, t);
    match step
    case Acknowledge(_) => AcknowledgeKeeps(hash, v, c);
    case LoseReply(_) => LoseReplyKeeps(hash, v, c);
    case GiveUp(_) => GiveUpKeeps(hash, v, c);
  }

  lemma AcknowledgeKeeps(hash: seq<byte> -> string, v: View, c: Change)
    requires ViewInv(hash, v) && DoAcknowledge(v) == Some(c)
    ensures Fits(v, c) && ViewInv(hash, ChangedView(v, c))
  {
    hide DirsMade;
  }

  lemma LoseReplyKeeps(hash: seq<byte> -> string, v: View, c: Change)
    requires ViewInv(hash, v) && DoLoseReply(v) == Some(c)
    ensures Fits(v, c) && ViewInv(hash, ChangedView(v, c))
  {
    hide DirsMade;
  }

  lemma GiveUpKeeps(hash: seq<byte> -> string, v: View, c: Change)
    requires ViewInv(hash, v) && DoGiveUp(v) == Some(c)
    ensures Fits(v, c) && ViewInv(hash, ChangedView(v, c))
  {
    hide DirsMade;
  }

  /** So does each step that reports on it. */
  lemma ReportKeeps(hash: seq<byte> -> string, s: State, t: TaskId, step: Step, c: Change)
    requires t in s.log.uploads && ViewInv(hash, ViewOf(s, t))
    requires ChangeOf(s, t, step) == Some(c) && Reports(step)
    ensures Fits(ViewOf(s, t), c) && ViewInv(hash, ChangedView(ViewOf(s, t), c))
  {
    hide ViewOf, ViewInv, ChangedView, Fits, DoPushCatalog, DoPutFinal, DoRemember;
    var v := ViewOf(s, t);
    match step
    case PushCatalog(_) => PushCatalogKeeps(hash, v, s.now, c);
    case PutFinal(_, effect) => PutFinalKeeps(hash, v, effect, c);
    case Remember(_, evicted) => RememberKeeps(hash, v, evicted, c);
  }

  lemma PushCatalogKeeps(hash: seq<byte> -> string, v: View, now: nat, c: Change)
    requires ViewInv(hash, v) && DoPushCatalog(v, now) == Some(c)
    ensures Fits(v, c) && ViewInv(hash, ChangedView(v, c))
  {
    hide DirsMade;
  }

  lemma PutFinalKeeps(hash: seq<byte> -> string, v: View, effect: bool, c: Change)
    requires ViewInv(hash, v) && DoPutFinal(v, effect) == Some(c)
    ensures Fits(v, c) && ViewInv(hash, ChangedView(v, c))
  {
    hide DirsMade;
  }

  lemma RememberKeeps(hash: seq<byte> -> string, v: View, evicted: set<TaskId>, c: Change)
    requires ViewInv(hash, v) && DoRemember(v, evicted) == Some(c)
    ensures Fits(v, c) && ViewInv(hash, ChangedView(v, c))
  {
    hide DirsMade;
  }

  /** So does each poll. */
  lemma PollKeeps(hash: seq<byte> -> string, s: State, t: TaskId, step: Step, c: Change)
    requires t in s.log.uploads && ViewInv(hash, ViewOf(s, t))
    requires ChangeOf(s, t, step) == Some(c) && Polls(step)
    ensures Fits(ViewOf(s, t), c) && ViewInv(hash, ChangedView(ViewOf(s, t), c))
  {
    hide ViewOf, DoPushCatalog, DoPutFinal, DoRemember, DoSettleTask, DoPutRunning, DoCreate, DoCopy, DoCheckSize,
      DoPrepare, DoStoreObject, DoCommit,
      DoCommitError, DoRemoveArtifact, DoAcknowledge, DoLoseReply, DoGiveUp;
  }

  /** At startup the catalog tells whether a running task had been published. */
  lemma SettleKeeps(hash: seq<byte> -> string, s: State, t: TaskId, c: Change)
    requires Shared(s) && t in s.log.uploads && ViewInv(hash, ViewOf(s, t))
    requires DoSettleTask(ViewOf(s, t), s.mem.catalog, s.now) == Some(c)
    requires forall p :: p in s.disk.records ==> s.disk.records[p] in s.mem.catalog
    ensures Fits(ViewOf(s, t), c) && ViewInv(hash, ChangedView(ViewOf(s, t), c))
  {
    var v, catalog := ViewOf(s, t), s.mem.catalog;
    assert v.phase.None? && v.cached.None?;
    assert v.place.Some? ==> v.place.value in catalog;
    assert forall r :: r in catalog && r.key == v.upload.record.key ==> v.place == Some(r) by {
      assert forall r :: r in catalog ==> Known(s, r);
    }
    hide ViewOf;
    SettledKeeps(hash, v, catalog, s.now);
  }

  lemma SettledKeeps(hash: seq<byte> -> string, v: View, catalog: seq<Record>, now: nat)
    requires ViewInv(hash, v) && v.phase.None? && v.cached.None? && v.task.Some?
    requires v.server == Settling && IsRunning(v.task.value)
    requires v.place.Some? ==> v.place.value in catalog
    requires forall r :: r in catalog && r.key == v.upload.record.key ==> v.place == Some(r)
    ensures ViewInv(hash, ChangedView(v, To(None).(task := Some(Settled(v.task.value, catalog, now)))))
  {
    var task := v.task.value;
    if exists r :: r in catalog && Matches(task, r) {
      var r :| r in catalog && Matches(task, r);
      assert r.key == v.upload.record.key;
    } else if v.seenCompleted {
      assert Matches(task, v.place.value);
    }
    NewTaskKeeps(hash, v, Settled(task, catalog, now));
  }

  lemma NewTaskKeeps(hash: seq<byte> -> string, v: View, task: Task)
    requires ViewInv(hash, v) && v.phase.None? && v.cached.None? && TaskOk(v, task)
    requires v.seenCompleted ==> task.state != Failed
    ensures ViewInv(hash, ChangedView(v, To(None).(task := Some(task))))
  {
  }

  /** Before the server is up nothing is pending, so the catalog has every record. */
  lemma AllListed(hash: seq<byte> -> string, s: State, p: Place)
    requires Inv(hash, s) && (s.mem.server == Loading || s.mem.server == Settling) && p in s.disk.records
    ensures s.disk.records[p] in s.mem.catalog
  {
    assert p in s.log.winner;
    var t := s.log.winner[p];
    var v := ViewOf(s, t);
    Viewed(hash, s, t);
    hide Inv;
    assert v.listed by {
      hide ViewInv, Staged, Truthful, Told, Agreed, LeavesNothing;
      IdleView(s, t);
      ListedWhenIdle(hash, v);
    }
    assert v.place == Some(v.upload.record);
  }

  lemma IdleView(s: State, t: TaskId)
    requires Shared(s) && t in s.log.uploads && s.mem.server != Up
    ensures var v := ViewOf(s, t); v.phase.None? && v.cached.None? && !v.unlisted
  {
  }

  lemma ListedWhenIdle(hash: seq<byte> -> string, v: View)
    requires ViewInv(hash, v) && v.won && v.phase.None? && !v.unlisted && v.server != Down
    ensures v.listed
  {
  }

  lemma ActInv(hash: seq<byte> -> string, s: State, t: TaskId, step: Step, s': State)
    requires Inv(hash, s) && DoAct(s, t, step) == Some(s')
    ensures Inv(hash, s')
  {
    hide Act, ViewOf, ViewInv, ChangedView, Inv, Fits, ChangeOf;
    var c := ChangeOf(s, t, step).value;
    ChangeKeeps(hash, s, t, step, c);
    ActKeepsInv(hash, s, t, c);
  }

  lemma ChangeKeeps(hash: seq<byte> -> string, s: State, t: TaskId, step: Step, c: Change)
    requires Inv(hash, s) && t in s.log.uploads && ChangeOf(s, t, step) == Some(c)
    ensures Fits(ViewOf(s, t), c) && ViewInv(hash, ChangedView(ViewOf(s, t), c))
  {
    hide ViewOf, ViewInv, ChangedView, Inv, Fits, DoPushCatalog, DoPutFinal, DoRemember, DoPollCache, DoPollStorage,
      DoSettleTask, DoPutRunning, DoCreate, DoCopy, DoCheckSize, DoPrepare, DoStoreObject, DoCommit,
      DoCommitError, DoRemoveArtifact, DoAcknowledge, DoLoseReply, DoGiveUp;
    Viewed(hash, s, t);
    if Starts(step) {
      StartKeeps(hash, s, t, step, c);
    } else if Fills(step) {
      FillKeeps(hash, s, t, step, c);
    } else if Decides(step) {
      DecisionKeeps(hash, s, t, step, c);
    } else if Answers(step) {
      AnswerKeeps(hash, s, t, step, c);
    } else if Reports(step) {
      ReportKeeps(hash, s, t, step, c);
    } else if Polls(step) {
      PollKeeps(hash, s, t, step, c);
    } else {
      SettleInv(hash, s, t, c);
    }
  }

  lemma SettleInv(hash: seq<byte> -> string, s: State, t: TaskId, c: Change)
    requires Inv(hash, s) && t in s.log.uploads
    requires DoSettleTask(ViewOf(s, t), s.mem.catalog, s.now) == Some(c)
    ensures Fits(ViewOf(s, t), c) && ViewInv(hash, ChangedView(ViewOf(s, t), c))
  {
    assert s.mem.server == Settling by {
      hide Inv;
    }
    hide ViewOf, DoSettleTask;
    forall p | p in s.disk.records ensures s.disk.records[p] in s.mem.catalog {
      AllListed(hash, s, p);
    }
    Viewed(hash, s, t);
    hide ViewInv, ChangedView, Fits, Shared, Each;
    assert Shared(s);
    SettleKeeps(hash, s, t, c);
  }

  // The other steps.

  lemma AcceptedView(s: State, t: TaskId, upload: Upload, s': State, u: TaskId, hash: seq<byte> -> string)
    requires DoAccept(hash, s, t, upload) == Some(s') && u in s.log.uploads
    ensures u != t && ViewOf(s', u) == ViewOf(s, u)
  {
  }

  lemma NewView(hash: seq<byte> -> string, s: State, t: TaskId, upload: Upload, s': State)
    requires Shared(s) && DoAccept(hash, s, t, upload) == Some(s')
    ensures ViewInv(hash, ViewOf(s', t))
  {
    assert forall r :: r in s.mem.catalog ==> Known(s, r);
  }

  lemma AcceptShared(hash: seq<byte> -> string, s: State, t: TaskId, upload: Upload, s': State)
    requires Shared(s) && DoAccept(hash, s, t, upload) == Some(s')
    ensures Shared(s')
  {
    hide Rooted, Accounted, Catalogued, Reading;
    AcceptAccounted(hash, s, t, upload, s');
    AcceptListed(hash, s, t, upload, s');
  }

  lemma AcceptAccounted(hash: seq<byte> -> string, s: State, t: TaskId, upload: Upload, s': State)
    requires Accounted(s) && DoAccept(hash, s, t, upload) == Some(s')
    ensures Accounted(s')
  {
    hide ValidKey;
  }

  lemma AcceptListed(hash: seq<byte> -> string, s: State, t: TaskId, upload: Upload, s': State)
    requires Catalogued(s) && Reading(s) && DoAccept(hash, s, t, upload) == Some(s')
    ensures Catalogued(s') && Reading(s')
  {
    hide ValidKey;
  }

  lemma AcceptInv(hash: seq<byte> -> string, s: State, t: TaskId, upload: Upload, s': State)
    requires Inv(hash, s) && DoAccept(hash, s, t, upload) == Some(s')
    ensures Inv(hash, s')
  {
    hide ViewInv, ViewOf, Shared;
    AcceptShared(hash, s, t, upload, s');
    NewView(hash, s, t, upload, s');
    forall u | u in s'.log.uploads && u != t ensures ViewInv(hash, ViewOf(s', u)) {
      Viewed(hash, s, u);
      AcceptedView(s, t, upload, s', u, hash);
    }
  }

  lemma SameView(s: State, s': State, u: TaskId)
    requires s'.backend == s.backend && s'.disk == s.disk && s'.log == s.log
    requires s'.mem == s.mem.(readers := s'.mem.readers) && u in s.log.uploads
    ensures ViewOf(s', u) == ViewOf(s, u)
  {
  }

  lemma ReaderShared(s: State, reader: nat, key: Key, s': State)
    requires Shared(s) && (DoFind(s, reader, key) == Some(s') || DoFetch(s, reader) == Some(s'))
    ensures Shared(s')
  {
    hide Rooted;
  }

  lemma ReaderInv(hash: seq<byte> -> string, s: State, reader: nat, key: Key, s': State)
    requires Inv(hash, s) && (DoFind(s, reader, key) == Some(s') || DoFetch(s, reader) == Some(s'))
    ensures Inv(hash, s')
  {
    hide ViewInv, ViewOf, Shared;
    ReaderShared(s, reader, key, s');
    forall u | u in s'.log.uploads ensures ViewInv(hash, ViewOf(s', u)) {
      Viewed(hash, s, u);
      SameView(s, s', u);
    }
  }

  lemma TickShared(s: State, seconds: nat, s': State)
    requires Shared(s) && s' == s.(now := s.now + seconds)
    ensures Shared(s')
  {
    hide Rooted;
  }

  lemma TickInv(hash: seq<byte> -> string, s: State, seconds: nat, s': State)
    requires Inv(hash, s) && s' == s.(now := s.now + seconds)
    ensures Inv(hash, s')
  {
    hide ViewInv, ViewOf, Shared;
    TickShared(s, seconds, s');
    forall u | u in s'.log.uploads ensures ViewInv(hash, ViewOf(s', u)) {
      Viewed(hash, s, u);
      SameView(s, s', u);
    }
  }

  function Crashed(v: View): View {
    v.(server := Down, phase := None, cached := None, listed := false, keyListed := false, unlisted := false)
  }

  lemma CrashKeeps(hash: seq<byte> -> string, v: View)
    requires ViewInv(hash, v)
    ensures ViewInv(hash, Crashed(v))
  {
  }

  lemma CrashedView(s: State, s': State, u: TaskId)
    requires DoCrash(s) == Some(s') && u in s.log.uploads
    ensures ViewOf(s', u) == Crashed(ViewOf(s, u))
  {
  }

  lemma CrashShared(s: State, s': State)
    requires Shared(s) && DoCrash(s) == Some(s')
    ensures Shared(s')
  {
    hide Rooted;
  }

  lemma CrashInv(hash: seq<byte> -> string, s: State, s': State)
    requires Inv(hash, s) && DoCrash(s) == Some(s')
    ensures Inv(hash, s')
  {
    hide ViewInv, ViewOf, Crashed, Shared;
    CrashShared(s, s');
    forall u | u in s'.log.uploads ensures ViewInv(hash, ViewOf(s', u)) {
      Viewed(hash, s, u);
      CrashKeeps(hash, ViewOf(s, u));
      CrashedView(s, s', u);
    }
  }

  function Loaded(v: View, keyListed: bool): View {
    v.(server := Loading, listed := v.place == Some(v.upload.record), keyListed := keyListed)
  }

  lemma LoadKeeps(hash: seq<byte> -> string, v: View, keyListed: bool)
    requires ViewInv(hash, v) && v.server == Down && (keyListed ==> v.place.Some?)
    ensures ViewInv(hash, Loaded(v, keyListed))
  {
  }

  lemma LoadedView(s: State, listing: seq<Record>, s': State, u: TaskId)
    requires DoLoadRecords(s, listing) == Some(s') && u in s.log.uploads
    ensures ViewOf(s, u).server == Down
    ensures ViewOf(s', u).keyListed ==> ViewOf(s, u).place.Some?
    ensures ViewOf(s', u) == Loaded(ViewOf(s, u), ViewOf(s', u).keyListed)
  {
    assert forall r :: r in listing ==> Known(s, r);
  }

  lemma LoadShared(s: State, listing: seq<Record>, s': State)
    requires Shared(s) && DoLoadRecords(s, listing) == Some(s')
    ensures Shared(s')
  {
    hide Rooted;
  }

  lemma LoadRecordsInv(hash: seq<byte> -> string, s: State, listing: seq<Record>, s': State)
    requires Inv(hash, s) && DoLoadRecords(s, listing) == Some(s')
    ensures Inv(hash, s')
  {
    hide ViewInv, ViewOf, Loaded, Shared;
    LoadShared(s, listing, s');
    forall u | u in s'.log.uploads ensures ViewInv(hash, ViewOf(s', u)) {
      Viewed(hash, s, u);
      LoadedView(s, listing, s', u);
      LoadKeeps(hash, ViewOf(s, u), ViewOf(s', u).keyListed);
    }
  }

  lemma OrphanKeeps(hash: seq<byte> -> string, v: View)
    requires ViewInv(hash, v) && !v.won && v.phase.None?
    ensures ViewInv(hash, v.(artifact := None))
  {
  }

  lemma OrphanView(s: State, a: string, s': State, u: TaskId)
    requires Idle(s) && DoRemoveOrphan(s, a) == Some(s') && u in s.log.uploads
    ensures ViewOf(s, u).phase.None?
    ensures ViewOf(s', u) == if Name(s, u) == a then ViewOf(s, u).(artifact := None) else ViewOf(s, u)
  {
    hide ArtifactsOf;
  }

  /** The artifact of a committed record is never an orphan. */
  lemma OrphanNotWon(hash: seq<byte> -> string, s: State, a: string, s': State, u: TaskId)
    requires Inv(hash, s) && DoRemoveOrphan(s, a) == Some(s') && u in s.log.uploads && Name(s, u) == a
    ensures !Won(s, u)
  {
    hide Inv;
    if Won(s, u) {
      WonIsListed(hash, s, u);
    }
  }

  lemma WonIsListed(hash: seq<byte> -> string, s: State, u: TaskId)
    requires Inv(hash, s) && (s.mem.server == Loading || s.mem.server == Settling) && u in s.log.uploads && Won(s, u)
    ensures s.log.uploads[u].record in s.mem.catalog
  {
    Viewed(hash, s, u);
    assert s.disk.records[PlaceAt(s, u)] == s.log.uploads[u].record;
    AllListed(hash, s, PlaceAt(s, u));
  }

  lemma OrphanShared(s: State, a: string, s': State)
    requires Shared(s) && DoRemoveOrphan(s, a) == Some(s')
    ensures Shared(s') && Idle(s)
  {
    hide Rooted, ArtifactsOf;
  }

  lemma RemoveOrphanInv(hash: seq<byte> -> string, s: State, a: string, s': State)
    requires Inv(hash, s) && DoRemoveOrphan(s, a) == Some(s')
    ensures Inv(hash, s')
  {
    hide ViewInv, ViewOf, Shared, ArtifactsOf;
    OrphanShared(s, a, s');
    forall u | u in s'.log.uploads ensures ViewInv(hash, ViewOf(s', u)) {
      Viewed(hash, s, u);
      OrphanView(s, a, s', u);
      if Name(s, u) == a {
        OrphanNotWon(hash, s, a, s', u);
        ViewSaysWon(s, u);
        OrphanKeeps(hash, ViewOf(s, u));
      }
    }
  }

  lemma ViewSaysWon(s: State, u: TaskId)
    requires u in s.log.uploads
    ensures ViewOf(s, u).won == Won(s, u)
  {
  }

  /** The server moves on, and when it is up it caches some settled tasks. */
  function Served(v: View, server: Server, cached: Option<Task>): View {
    v.(server := server, cached := cached)
  }

  lemma ServerKeeps(hash: seq<byte> -> string, v: View, server: Server, cached: Option<Task>)
    requires ViewInv(hash, v) && v.phase.None? && v.cached.None? && v.server != Down
    requires cached.Some? ==> cached == v.task && !IsRunning(v.task.value)
    ensures ViewInv(hash, Served(v, server, cached))
  {
  }

  lemma SettlingView(s: State, s': State, u: TaskId)
    requires DoEndReconcile(s) == Some(s') && u in s.log.uploads && Idle(s)
    ensures var v := ViewOf(s, u);
            && v.phase.None? && v.cached.None? && v.server != Down
            && ViewOf(s', u) == Served(v, Settling, None)
  {
  }

  lemma SettlingShared(s: State, s': State)
    requires Shared(s) && DoEndReconcile(s) == Some(s')
    ensures Shared(s') && Idle(s)
  {
    hide Rooted;
  }

  lemma EndReconcileInv(hash: seq<byte> -> string, s: State, s': State)
    requires Inv(hash, s) && DoEndReconcile(s) == Some(s')
    ensures Inv(hash, s')
  {
    hide ViewInv, ViewOf, Served, Shared;
    SettlingShared(s, s');
    forall u | u in s'.log.uploads ensures ViewInv(hash, ViewOf(s', u)) {
      Viewed(hash, s, u);
      SettlingView(s, s', u);
      ServerKeeps(hash, ViewOf(s, u), Settling, None);
    }
  }

  lemma ServedView(s: State, kept: set<TaskId>, s': State, u: TaskId)
    requires DoServe(s, kept) == Some(s') && u in s.log.uploads && Idle(s)
    ensures var v, v' := ViewOf(s, u), ViewOf(s', u);
            && v.phase.None? && v.cached.None? && v.server != Down && v' == Served(v, Up, v'.cached)
            && (v'.cached.Some? ==> v'.cached == v.task && !IsRunning(v.task.value))
  {
  }

  lemma ServedShared(s: State, kept: set<TaskId>, s': State)
    requires Shared(s) && DoServe(s, kept) == Some(s')
    ensures Shared(s') && Idle(s)
  {
    hide Rooted;
  }

  lemma ServeInv(hash: seq<byte> -> string, s: State, kept: set<TaskId>, s': State)
    requires Inv(hash, s) && DoServe(s, kept) == Some(s')
    ensures Inv(hash, s')
  {
    hide ViewInv, ViewOf, Served, Shared;
    ServedShared(s, kept, s');
    forall u | u in s'.log.uploads ensures ViewInv(hash, ViewOf(s', u)) {
      Viewed(hash, s, u);
      ServedView(s, kept, s', u);
      ServerKeeps(hash, ViewOf(s, u), Up, ViewOf(s', u).cached);
    }
  }

  /** Every step keeps the invariant. */
  lemma StepInv(hash: seq<byte> -> string, s: State, step: Step, s': State)
    requires Inv(hash, s) && Apply(hash, s, step) == Some(s')
    ensures Inv(hash, s')
  {
    hide Inv, DoAct, DoAccept, DoFind, DoFetch, DoCrash, DoLoadRecords, DoRemoveOrphan, DoEndReconcile, DoServe;
    match step
    case Accept(t, upload) => AcceptInv(hash, s, t, upload, s');
    case Find(reader, key) => ReaderInv(hash, s, reader, key, s');
    case Fetch(reader) => ReaderInv(hash, s, reader, Key("", "", ""), s');
    case Tick(seconds) => TickInv(hash, s, seconds, s');
    case Crash => CrashInv(hash, s, s');
    case LoadRecords(listing) => LoadRecordsInv(hash, s, listing, s');
    case RemoveOrphan(a) => RemoveOrphanInv(hash, s, a, s');
    case EndReconcile => EndReconcileInv(hash, s, s');
    case Serve(kept) => ServeInv(hash, s, kept, s');
    case _ => ActInv(hash, s, step.t, step, s');
  }

  lemma InitInv(hash: seq<byte> -> string, backend: Backend)
    requires backend == LOCAL || backend == S3
    ensures Inv(hash, Init(backend))
  {
  }

  /** Every reachable state satisfies the invariant. */
  lemma {:induction false} RunInv(hash: seq<byte> -> string, s: State, steps: seq<Step>, s': State)
    requires Inv(hash, s) && Run(hash, s, steps) == Some(s')
    ensures Inv(hash, s')
  {
    if steps != [] {
      var n := |steps| - 1;
      var before := Run(hash, s, steps[..n]).value;
      RunInv(hash, s, steps[..n], before);
      StepInv(hash, before, steps[n], s');
    }
  }
}
