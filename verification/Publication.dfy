/**
 The publication protocol (src/storage.rs and the upload worker and startup path of
 src/app.rs) as a state machine. Publishers, readers and status polls interleave freely; the
 process may crash between any two steps and start again.

 One step is one effect on the storage or on shared memory. What was written before a crash
 persists. A write that reports an error may or may not have taken effect.
 */
module Publication {
  import opened Wrappers
  import opened Sequences
  import opened Keys
  import opened Storage

  type Place = seq<string>

  /** A kind of storage, and where it commits the record of a key. */
  datatype Backend = Backend(local: bool, place: Key -> Place)

  const LOCAL: Backend := Backend(true, RecordPath)
  const S3: Backend := Backend(false, Structured)

  type TaskId = nat

  datatype TaskState = Running | Completed | Failed | Other(text: string)

  datatype Task = Task(
    namespace: string,
    collection: Option<string>,
    version: Option<string>,
    sha256: Option<string>,
    state: TaskState,
    finished: bool,
    startedAt: nat,
    finishedAt: Option<nat>)

  /** An inspected archive, the record that is to name it, and when its task was made. */
  datatype Upload = Upload(record: Record, source: seq<byte>, startedAt: nat)

  /** What `publish_file` returns. */
  datatype Outcome = Published | AlreadyExists | Error

  /** How far the worker of one upload has come. */
  datatype Phase =
    | Accepted            // the task is not persisted yet
    | Begun               // the running task is persisted
    | Located             // local: the directory of the record is there
    | Copying             // local: the artifact exists and is being filled
    | Copied              // local: the artifact is complete
    | Prepared            // the artifact is stored and the record can be committed
    | Rejected            // another record is there: remove the artifact
    | Undoing             // local: the link failed: remove the artifact
    | Committed           // the record is there
    | Returned(outcome: Outcome)  // publish_file returned
    | Pushed(outcome: Outcome, at: nat)    // finished at that time; the catalog is up to date
    | Persisted(outcome: Outcome, at: nat) // the final task was put, or that failed

  datatype Artifact = Artifact(bytes: seq<byte>, modified: nat)

  /** The process: not running, starting up, or serving. */
  datatype Server = Down | Loading | Settling | Up

  /** What survives a crash. `dirs` are the directories of record files; S3 has none. */
  datatype Disk = Disk(
    records: map<Place, Record>,
    dirs: set<Place>,
    artifacts: map<string, Artifact>,
    tasks: map<TaskId, Task>)

  /** What a crash erases. Each running upload has a worker, each download a reader. */
  datatype Memory = Memory(
    server: Server,
    catalog: seq<Record>,
    cache: map<TaskId, Task>,
    workers: map<TaskId, Phase>,
    readers: map<nat, Record>)

  /**
   History. Steps read it for the uploads and to pick fresh names, nothing else. `leftovers`
   are the uploads whose attempt to remove their own artifact failed.
   */
  datatype Log = Log(
    uploads: map<TaskId, Upload>,
    owner: map<string, TaskId>,
    winner: map<Place, TaskId>,
    outcomes: map<TaskId, Outcome>,
    seenCompleted: set<TaskId>,
    unlisted: set<Place>,
    leftovers: set<TaskId>)

  datatype State = State(backend: Backend, now: nat, disk: Disk, mem: Memory, log: Log)

  const EMPTY_MEMORY := Memory(Down, [], map[], map[], map[])

  function Init(backend: Backend): State {
    State(backend, 0, Disk(map[], {}, map[], map[]), EMPTY_MEMORY, Log(map[], map[], map[], map[], {}, {}, {}))
  }

  /** `create_dir_all` goes on, or returns. */
  datatype Making = More | Made | NotMade

  datatype Step =
    | Accept(t: TaskId, upload: Upload)
    | PutRunning(t: TaskId, effect: bool, reply: bool)
    | MakeDirectories(t: TaskId, made: nat, result: Making)
    | Create(t: TaskId)
    | Copy(t: TaskId, upto: nat)
    | CheckSize(t: TaskId, removed: bool)
    | Prepare(t: TaskId)
    | StoreObject(t: TaskId, effect: bool, reply: bool)
    | Commit(t: TaskId)
    | CommitError(t: TaskId)
    | RemoveArtifact(t: TaskId, removed: bool)
    | Acknowledge(t: TaskId)
    | LoseReply(t: TaskId)
    | GiveUp(t: TaskId)
    | PushCatalog(t: TaskId)
    | PutFinal(t: TaskId, effect: bool)
    | Remember(t: TaskId, evicted: set<TaskId>)
    | Find(reader: nat, key: Key)
    | Fetch(reader: nat)
    | PollCache(t: TaskId)
    | PollStorage(t: TaskId)
    | Tick(seconds: nat)
    | Crash
    | LoadRecords(listing: seq<Record>)
    | RemoveOrphan(artifact: string)
    | EndReconcile
    | SettleTask(t: TaskId)
    | Serve(kept: set<TaskId>)

  // Tasks.

  function RunningTask(upload: Upload): Task {
    var record := upload.record;
    Task(record.key.namespace, Some(record.key.name), Some(record.key.version), Some(record.sha256),
         Running, false, upload.startedAt, None)
  }

  function FinalTask(upload: Upload, outcome: Outcome, at: nat): Task {
    RunningTask(upload).(state := if outcome.Published? then Completed else Failed, finished := true,
      finishedAt := Some(at))
  }

  predicate IsRunning(task: Task) {
    !task.finished && task.state == Running
  }

  predicate Matches(task: Task, record: Record) {
    && record.key.namespace == task.namespace && task.collection == Some(record.key.name)
    && task.version == Some(record.key.version) && task.sha256 == Some(record.sha256)
  }

  /** What startup makes of one persisted task. */
  function Settled(task: Task, catalog: seq<Record>, now: nat): Task {
    if !IsRunning(task) then task
    else
      var published := exists r :: r in catalog && Matches(task, r);
      task.(state := if published then Completed else Failed, finished := true, finishedAt := Some(now))
  }

  function Name(s: State, t: TaskId): string
    requires t in s.log.uploads
  {
    s.log.uploads[t].record.artifact
  }

  function PlaceAt(s: State, t: TaskId): Place
    requires t in s.log.uploads
  {
    s.backend.place(s.log.uploads[t].record.key)
  }

  function Get<K, V>(m: map<K, V>, k: K): Option<V> {
    if k in m then Some(m[k]) else None
  }

  /** Everything in a state that concerns one upload. */
  datatype View = View(
    local: bool,
    upload: Upload,
    server: Server,
    place: Option<Record>,       // the record at its place
    won: bool,                   // that record is its own
    blocked: bool,               // a directory is at its place
    housed: bool,                // the directory of its record is there
    clear: bool,                 // no record file is where it needs a directory
    artifact: Option<seq<byte>>, // the artifact of its name
    phase: Option<Phase>,        // its worker
    answer: Option<Outcome>,     // what publish_file returned
    task: Option<Task>,
    cached: Option<Task>,
    seenCompleted: bool,
    listed: bool,                // its record is in the catalog
    keyListed: bool,             // some record of its key is
    unlisted: bool,
    leftover: bool)              // its artifact could not be removed

  predicate Won(s: State, t: TaskId) {
    t in s.log.uploads && PlaceAt(s, t) in s.log.winner && s.log.winner[PlaceAt(s, t)] == t
  }

  function ViewOf(s: State, t: TaskId): View
    requires t in s.log.uploads
  {
    var upload, a := s.log.uploads[t], Name(s, t);
    View(s.backend.local, upload, s.mem.server, Get(s.disk.records, PlaceAt(s, t)), Won(s, t),
         PlaceAt(s, t) in s.disk.dirs, RecordDir(upload.record.key) in s.disk.dirs,
         forall d :: d in DirsMade(upload.record.key) ==> d !in s.disk.records,
         if a in s.disk.artifacts then Some(s.disk.artifacts[a].bytes) else None,
         Get(s.mem.workers, t), Get(s.log.outcomes, t), Get(s.disk.tasks, t), Get(s.mem.cache, t),
         t in s.log.seenCompleted, upload.record in s.mem.catalog,
         exists r :: r in s.mem.catalog && r.key == upload.record.key,
         PlaceAt(s, t) in s.log.unlisted, t in s.log.leftovers)
  }

  datatype FileChange = Keep | Fill(bytes: seq<byte>) | Delete

  /** What a step does for the upload it acts for. */
  datatype Change = Change(
    phase: Option<Phase>,    // its worker afterwards, None if there is none
    file: FileChange,        // to its artifact
    made: nat,               // so many of its directories are there afterwards
    commits: bool,           // its record takes its place
    answer: Option<Outcome>, // publish_file returns
    task: Option<Task>,      // put into storage
    cached: Option<Task>,    // put into the cache
    evicted: set<TaskId>,    // others leave the cache then
    lists: bool,             // its record joins the catalog
    unlists: bool,           // its record is committed but will not join
    sees: bool,              // somebody sees it completed
    leaves: bool)            // its artifact could not be removed

  function To(phase: Option<Phase>): Change {
    Change(phase, Keep, 0, false, None, None, None, {}, false, false, false, false)
  }

  function Return(outcome: Outcome): Change {
    To(Some(Returned(outcome))).(answer := Some(outcome))
  }

  /** The first of the directories for a record of `k`. */
  function FirstDirs(k: Key, made: nat): set<Place> {
    set i | 0 <= i < made && i < |DirsMade(k)| :: DirsMade(k)[i]
  }

  function Act(s: State, t: TaskId, c: Change): State
    requires t in s.log.uploads
  {
    var p, a, record := PlaceAt(s, t), Name(s, t), s.log.uploads[t].record;
    State(
      s.backend, s.now,
      Disk(
        if c.commits then s.disk.records[p := record] else s.disk.records,
        s.disk.dirs + FirstDirs(record.key, c.made),
        match c.file
        case Keep => s.disk.artifacts
        case Fill(bytes) => s.disk.artifacts[a := Artifact(bytes, s.now)]
        case Delete => s.disk.artifacts - {a},
        if c.task.Some? then s.disk.tasks[t := c.task.value] else s.disk.tasks),
      Memory(
        s.mem.server,
        if c.lists then s.mem.catalog + [record] else s.mem.catalog,
        if c.cached.Some? then (s.mem.cache - c.evicted)[t := c.cached.value] else s.mem.cache,
        if c.phase.Some? then s.mem.workers[t := c.phase.value] else s.mem.workers - {t},
        s.mem.readers),
      Log(
        s.log.uploads, s.log.owner,
        if c.commits then s.log.winner[p := t] else s.log.winner,
        if c.answer.Some? then s.log.outcomes[t := c.answer.value] else s.log.outcomes,
        if c.sees then s.log.seenCompleted + {t} else s.log.seenCompleted,
        if c.unlists then s.log.unlisted + {p} else s.log.unlisted,
        if c.leaves then s.log.leftovers + {t} else s.log.leftovers))
  }

  // The steps of a worker. Each yields None where it is not enabled.

  /** The first `put_task`. If it fails the worker ends without publishing. */
  function DoPutRunning(v: View, effect: bool, reply: bool): Option<Change> {
    if v.phase == Some(Accepted) && (reply ==> effect) then
      Some(To(if reply then Some(Begun) else None).(
             task := if effect then Some(RunningTask(v.upload)) else None))
    else None
  }

  /**
   Local: `create_dir_all` makes the directories one by one. A record file in the way makes it
   fail, and a collection name that is a single dot does so unless the directory is there.
   */
  function DoMakeDirectories(v: View, made: nat, result: Making): Option<Change> {
    var k := v.upload.record.key;
    if v.phase == Some(Begun) && v.local && made <= |DirsMade(k)| && (made > 0 ==> v.clear)
       && (result.Made? ==> made == |DirsMade(k)| && (v.housed || k.name != ".")) then
      Some((match result case More => To(v.phase) case Made => To(Some(Located)) case NotMade => Return(Error)).(
             made := made))
    else None
  }

  /** Local: `create_new` refuses a name that exists. */
  function DoCreate(v: View): Option<Change> {
    if v.phase == Some(Located) then
      Some(if v.artifact.Some? then Return(Error) else To(Some(Copying)).(file := Fill([])))
    else None
  }

  /** Local: some more of the source reaches the artifact. */
  function DoCopy(v: View, upto: nat): Option<Change> {
    if v.phase == Some(Copying) && v.artifact.Some? && |v.artifact.value| <= upto <= |v.upload.source| then
      Some(To(v.phase).(file := Fill(v.upload.source[..upto])))
    else None
  }

  /** Local: the copy ended; its length is compared with the record. */
  function DoCheckSize(v: View, removed: bool): Option<Change> {
    if v.phase == Some(Copying) && v.artifact.Some? && |v.artifact.value| == |v.upload.source| then
      Some(if |v.upload.source| == v.upload.record.size then To(Some(Copied))
           else Return(Error).(file := if removed then Delete else Keep, leaves := !removed))
    else None
  }

  /** Local: the temporary record is written. */
  function DoPrepare(v: View): Option<Change> {
    if v.phase == Some(Copied) then Some(To(Some(Prepared))) else None
  }

  /** S3: the unconditional put of the artifact. */
  function DoStoreObject(v: View, effect: bool, reply: bool): Option<Change> {
    if v.phase == Some(Begun) && !v.local && (reply ==> effect) then
      Some((if reply then To(Some(Prepared)) else Return(Error)).(
             file := if effect then Fill(v.upload.source) else Keep))
    else None
  }

  /**
   The hard link, or the conditional put: takes the place only if it is free. A hard link is
   refused alike by a record file and by a directory.
   */
  function DoCommit(v: View): Option<Change> {
    if v.phase == Some(Prepared) then
      Some(if v.place.Some? || v.blocked then To(Some(Rejected)) else To(Some(Committed)).(commits := true))
    else None
  }

  /** The commit fails without effect. S3 keeps the artifact, since it cannot tell. */
  function DoCommitError(v: View): Option<Change> {
    if v.phase == Some(Prepared) then
      Some(if v.local then To(Some(Undoing)) else Return(Error))
    else None
  }

  /** The loser removes its own artifact. A failure to do so is ignored. */
  function DoRemoveArtifact(v: View, removed: bool): Option<Change> {
    if v.phase == Some(Rejected) || v.phase == Some(Undoing) then
      Some(Return(if v.phase == Some(Rejected) then AlreadyExists else Error).(
             file := if removed then Delete else Keep, leaves := !removed))
    else None
  }

  /** Success, and the caller learns of it. */
  function DoAcknowledge(v: View): Option<Change> {
    if v.phase == Some(Committed) then Some(Return(Published)) else None
  }

  /** Committed, but a directory cannot be synced or the response is lost: an error. */
  function DoLoseReply(v: View): Option<Change> {
    if v.phase == Some(Committed) then Some(Return(Error).(unlists := true)) else None
  }

  /** An input or output error before the commit. What was written stays. */
  function DoGiveUp(v: View): Option<Change> {
    if v.phase in {Some(Begun), Some(Located), Some(Copying), Some(Copied)} then Some(Return(Error)) else None
  }

  function DoPushCatalog(v: View, now: nat): Option<Change> {
    if v.phase.Some? && v.phase.value.Returned? then
      var outcome := v.phase.value.outcome;
      Some(To(Some(Pushed(outcome, now))).(lists := outcome.Published?))
    else None
  }

  /** The final `put_task`. A failure is only logged. */
  function DoPutFinal(v: View, effect: bool): Option<Change> {
    if v.phase.Some? && v.phase.value.Pushed? then
      var (outcome, at) := (v.phase.value.outcome, v.phase.value.at);
      Some(To(Some(Persisted(outcome, at))).(
             task := if effect then Some(FinalTask(v.upload, outcome, at)) else None))
    else None
  }

  /** `remember_task`, which may evict others, and the response to the client. */
  function DoRemember(v: View, evicted: set<TaskId>): Option<Change> {
    if v.phase.Some? && v.phase.value.Persisted? then
      var (outcome, at) := (v.phase.value.outcome, v.phase.value.at);
      Some(To(None).(cached := Some(FinalTask(v.upload, outcome, at)), evicted := evicted, sees := outcome.Published?))
    else None
  }

  // Polls of a task and its settling at startup.

  function DoPollCache(v: View): Option<Change> {
    if v.cached.Some? then Some(To(v.phase).(sees := v.cached.value.state == Completed)) else None
  }

  /** The poll found no cached task some time before. */
  function DoPollStorage(v: View): Option<Change> {
    if v.server == Up && v.task.Some? then Some(To(v.phase).(sees := v.task.value.state == Completed)) else None
  }

  function DoSettleTask(v: View, catalog: seq<Record>, now: nat): Option<Change> {
    if v.server == Settling && v.task.Some? && IsRunning(v.task.value) then
      Some(To(v.phase).(task := Some(Settled(v.task.value, catalog, now))))
    else None
  }

  /** The steps that act for one upload. */
  function ChangeOf(s: State, t: TaskId, step: Step): Option<Change>
    requires t in s.log.uploads
  {
    var v := ViewOf(s, t);
    match step
    case PutRunning(_, effect, reply) => DoPutRunning(v, effect, reply)
    case MakeDirectories(_, made, result) => DoMakeDirectories(v, made, result)
    case Create(_) => DoCreate(v)
    case Copy(_, upto) => DoCopy(v, upto)
    case CheckSize(_, removed) => DoCheckSize(v, removed)
    case Prepare(_) => DoPrepare(v)
    case StoreObject(_, effect, reply) => DoStoreObject(v, effect, reply)
    case Commit(_) => DoCommit(v)
    case CommitError(_) => DoCommitError(v)
    case RemoveArtifact(_, removed) => DoRemoveArtifact(v, removed)
    case Acknowledge(_) => DoAcknowledge(v)
    case LoseReply(_) => DoLoseReply(v)
    case GiveUp(_) => DoGiveUp(v)
    case PushCatalog(_) => DoPushCatalog(v, s.now)
    case PutFinal(_, effect) => DoPutFinal(v, effect)
    case Remember(_, evicted) => DoRemember(v, evicted)
    case PollCache(_) => DoPollCache(v)
    case PollStorage(_) => DoPollStorage(v)
    case SettleTask(_) => DoSettleTask(v, s.mem.catalog, s.now)
    case _ => None
  }

  function DoAct(s: State, t: TaskId, step: Step): Option<State> {
    if t !in s.log.uploads then None
    else
      var c :- ChangeOf(s, t, step);
      Some(Act(s, t, c))
  }

  // The other steps.

  /** The archive check accepted the key and computed the record's size and digest from these bytes. */
  predicate Inspected(hash: seq<byte> -> string, upload: Upload) {
    ValidKey(upload.record.key) && upload.record.size == |upload.source| && upload.record.sha256 == hash(upload.source)
  }

  /** The handler accepts an upload. Task and artifact get fresh random names. */
  function DoAccept(hash: seq<byte> -> string, s: State, t: TaskId, upload: Upload): Option<State> {
    if s.mem.server == Up && t !in s.log.uploads && upload.record.artifact !in s.log.owner
       && Inspected(hash, upload) && upload.startedAt == s.now then
      Some(s.(mem := s.mem.(workers := s.mem.workers[t := Accepted]),
              log := s.log.(uploads := s.log.uploads[t := upload], owner := s.log.owner[upload.record.artifact := t])))
    else None
  }

  /** A reader finds a record. */
  function DoFind(s: State, reader: nat, key: Key): Option<State> {
    var p := s.backend.place(key);
    if s.mem.server == Up && p in s.disk.records && s.disk.records[p].key == key then
      Some(s.(mem := s.mem.(readers := s.mem.readers[reader := s.disk.records[p]])))
    else None
  }

  /** The reader gets the artifact of the record it found. */
  function DoFetch(s: State, reader: nat): Option<State> {
    if reader in s.mem.readers then Some(s.(mem := s.mem.(readers := s.mem.readers - {reader}))) else None
  }

  function DoCrash(s: State): Option<State> {
    Some(s.(mem := EMPTY_MEMORY, log := s.log.(unlisted := {})))
  }

  /** The record is committed. */
  predicate Known(s: State, r: Record) {
    var p := s.backend.place(r.key);
    p in s.disk.records && s.disk.records[p] == r
  }

  predicate DistinctKeys(listing: seq<Record>) {
    forall i, j :: 0 <= i < j < |listing| ==> listing[i].key != listing[j].key
  }

  /** A listing of all records, in any order. */
  predicate Lists(listing: seq<Record>, s: State) {
    && (forall r :: r in listing ==> Known(s, r))
    && (forall p :: p in s.disk.records ==> s.disk.records[p] in listing)
    && DistinctKeys(listing)
  }

  function DoLoadRecords(s: State, listing: seq<Record>): Option<State> {
    if s.mem.server == Down && Lists(listing, s) then
      Some(s.(mem := s.mem.(server := Loading, catalog := listing)))
    else None
  }

  function DoRemoveOrphan(s: State, a: string): Option<State> {
    if s.mem.server == Loading && a in s.disk.artifacts && a !in ArtifactsOf(s.mem.catalog)
       && s.disk.artifacts[a].modified < Cutoff(s.now) then
      Some(s.(disk := s.disk.(artifacts := s.disk.artifacts - {a})))
    else None
  }

  function DoEndReconcile(s: State): Option<State> {
    if s.mem.server == Loading then Some(s.(mem := s.mem.(server := Settling))) else None
  }

  /** All running tasks are settled. The cache starts with some of the persisted tasks. */
  function DoServe(s: State, kept: set<TaskId>): Option<State> {
    if s.mem.server == Settling && forall t :: t in s.disk.tasks ==> !IsRunning(s.disk.tasks[t]) then
      Some(s.(mem := s.mem.(server := Up, cache := map t | t in s.disk.tasks && t in kept :: s.disk.tasks[t])))
    else None
  }

  function Apply(hash: seq<byte> -> string, s: State, step: Step): Option<State> {
    match step
    case Accept(t, upload) => DoAccept(hash, s, t, upload)
    case Find(reader, key) => DoFind(s, reader, key)
    case Fetch(reader) => DoFetch(s, reader)
    case Tick(seconds) => Some(s.(now := s.now + seconds))
    case Crash => DoCrash(s)
    case LoadRecords(listing) => DoLoadRecords(s, listing)
    case RemoveOrphan(a) => DoRemoveOrphan(s, a)
    case EndReconcile => DoEndReconcile(s)
    case Serve(kept) => DoServe(s, kept)
    case _ => DoAct(s, step.t, step)
  }

  /** A run: any number of steps, each enabled when it is taken. */
  function Run(hash: seq<byte> -> string, s: State, steps: seq<Step>): Option<State> {
    if steps == [] then Some(s)
    else
      var before :- Run(hash, s, steps[..|steps| - 1]);
      Apply(hash, before, steps[|steps| - 1])
  }
}
