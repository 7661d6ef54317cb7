/** The promises of the publication protocol, for every run from an empty storage. */
module PublicationSafety {
  import opened Wrappers
  import opened Sequences
  import opened Keys
  import opened Storage
  import opened Publication
  import opened PublicationInvariant

  ghost predicate Reachable(hash: seq<byte> -> string, backend: Backend, s: State) {
    (backend == LOCAL || backend == S3) && exists steps :: Run(hash, Init(backend), steps) == Some(s)
  }

  lemma ReachableInv(hash: seq<byte> -> string, backend: Backend, s: State)
    requires Reachable(hash, backend, s)
    ensures Inv(hash, s)
  {
    var steps :| Run(hash, Init(backend), steps) == Some(s);
    InitInv(hash, backend);
    RunInv(hash, Init(backend), steps, s);
  }

  /** `verify_artifact`. */
  predicate Verifies(hash: seq<byte> -> string, record: Record, bytes: seq<byte>) {
    |bytes| == record.size && hash(bytes) == record.sha256
  }

  /** The artifact that a record names is there and passes the integrity check. */
  ghost predicate Sound(hash: seq<byte> -> string, s: State, record: Record) {
    record.artifact in s.disk.artifacts && Verifies(hash, record, s.disk.artifacts[record.artifact].bytes)
  }

  /**
   In every reachable state each committed record names an artifact that is complete and has
   the record's size and digest, and so does each record that a reader found before.
   */
  lemma RecordsAreSound(hash: seq<byte> -> string, backend: Backend, s: State)
    requires Reachable(hash, backend, s)
    ensures forall p :: p in s.disk.records ==> Sound(hash, s, s.disk.records[p])
    ensures forall r :: r in s.mem.readers ==> Sound(hash, s, s.mem.readers[r])
  {
    ReachableInv(hash, backend, s);
    forall p | p in s.disk.records ensures Sound(hash, s, s.disk.records[p]) {
      var t := s.log.winner[p];
      Viewed(hash, s, t);
    }
    assert forall r :: r in s.mem.readers ==> Known(s, s.mem.readers[r]);
  }

  ghost function ArtifactOf(s: State, p: Place): Option<seq<byte>>
    requires p in s.disk.records
  {
    var a := s.disk.records[p].artifact;
    if a in s.disk.artifacts then Some(s.disk.artifacts[a].bytes) else None
  }

  lemma CommittedArtifact(hash: seq<byte> -> string, s: State, p: Place)
    requires Inv(hash, s) && p in s.disk.records
    ensures p in s.log.winner && s.log.winner[p] in s.log.uploads
    ensures s.disk.records[p] == s.log.uploads[s.log.winner[p]].record
    ensures ArtifactOf(s, p) == Some(s.log.uploads[s.log.winner[p]].source)
  {
    assert Won(s, s.log.winner[p]);
    Viewed(hash, s, s.log.winner[p]);
    hide Each;
  }

  /** Nothing that was committed, accepted or seen is ever taken back. */
  ghost predicate Grows(s: State, s': State) {
    && (forall p :: p in s.disk.records ==> p in s'.disk.records && s'.disk.records[p] == s.disk.records[p])
    && (forall p :: p in s.log.winner ==> p in s'.log.winner && s'.log.winner[p] == s.log.winner[p])
    && (forall t :: t in s.log.uploads ==> t in s'.log.uploads && s'.log.uploads[t] == s.log.uploads[t])
    && s.log.seenCompleted <= s'.log.seenCompleted && s.disk.dirs <= s'.disk.dirs && s'.backend == s.backend
  }

  lemma ActGrows(hash: seq<byte> -> string, s: State, t: TaskId, step: Step, s': State)
    requires Inv(hash, s) && DoAct(s, t, step) == Some(s')
    ensures Grows(s, s')
  {
    assert s.disk.records.Keys == s.log.winner.Keys;
    hide Inv, ViewInv, ChangeOf, Act, Grows, ChangedView, ViewOf;
    var c := ChangeOf(s, t, step).value;
    ChangeKeeps(hash, s, t, step, c);
    CommitsIfFree(s, t, c);
    ChangeGrows(s, t, c);
  }

  lemma CommitsIfFree(s: State, t: TaskId, c: Change)
    requires t in s.log.uploads && Fits(ViewOf(s, t), c)
    ensures c.commits ==> PlaceAt(s, t) !in s.disk.records
  {
  }

  lemma ChangeGrows(s: State, t: TaskId, c: Change)
    requires t in s.log.uploads && s.disk.records.Keys == s.log.winner.Keys
    requires c.commits ==> PlaceAt(s, t) !in s.disk.records
    ensures Grows(s, Act(s, t, c))
  {
  }

  lemma StepGrows(hash: seq<byte> -> string, s: State, step: Step, s': State)
    requires Inv(hash, s) && Apply(hash, s, step) == Some(s')
    ensures Grows(s, s')
  {
    hide Inv, DoAct, Lists;
    match step
    case Accept(t, upload) =>
    case Find(reader, key) =>
    case Fetch(reader) =>
    case Tick(seconds) =>
    case Crash =>
    case LoadRecords(listing) =>
    case RemoveOrphan(a) =>
    case EndReconcile =>
    case Serve(kept) =>
    case _ => ActGrows(hash, s, step.t, step, s');
  }

  lemma {:induction false} RunGrows(hash: seq<byte> -> string, s: State, steps: seq<Step>, s': State)
    requires Inv(hash, s) && Run(hash, s, steps) == Some(s')
    ensures Grows(s, s') && Inv(hash, s')
  {
    if steps != [] {
      var n := |steps| - 1;
      var before := Run(hash, s, steps[..n]).value;
      RunGrows(hash, s, steps[..n], before);
      StepGrows(hash, before, steps[n], s');
      StepInv(hash, before, steps[n], s');
    }
  }

  /**
   Once committed, a record is never changed, replaced or removed, and the artifact it names
   keeps its bytes: over any continuation, crashes and restarts included.
   */
  lemma CommittedIsForever(hash: seq<byte> -> string, backend: Backend, s: State, steps: seq<Step>, s': State, p: Place)
    requires Reachable(hash, backend, s) && Run(hash, s, steps) == Some(s') && p in s.disk.records
    ensures p in s'.disk.records && s'.disk.records[p] == s.disk.records[p]
    ensures ArtifactOf(s, p).Some? && ArtifactOf(s', p) == ArtifactOf(s, p)
  {
    ReachableInv(hash, backend, s);
    RunGrows(hash, s, steps, s');
    hide Inv;
    CommittedArtifact(hash, s, p);
    CommittedArtifact(hash, s', p);
  }

  /**
   For one key at most one publisher ever succeeds, and then its record is the one committed.
   A publisher is told that the version exists only if another one committed a record there or,
   on local disk, a directory is there.
   */
  lemma OneWinner(hash: seq<byte> -> string, backend: Backend, s: State, t: TaskId, u: TaskId)
    requires Reachable(hash, backend, s) && t in s.log.outcomes && u in s.log.uploads && t in s.log.uploads
    requires s.log.uploads[t].record.key == s.log.uploads[u].record.key
    ensures s.log.outcomes[t].Published? ==>
              PlaceAt(s, t) in s.disk.records && s.disk.records[PlaceAt(s, t)] == s.log.uploads[t].record
    ensures s.log.outcomes[t].Published? && u in s.log.outcomes && s.log.outcomes[u].Published? ==> t == u
    ensures s.log.outcomes[t].AlreadyExists? ==>
              || (PlaceAt(s, t) in s.disk.records && PlaceAt(s, t) in s.log.winner && s.log.winner[PlaceAt(s, t)] != t)
              || (s.backend.local && PlaceAt(s, t) in s.disk.dirs && PlaceAt(s, t) !in s.disk.records)
  {
    ReachableInv(hash, backend, s);
    Viewed(hash, s, t);
    Viewed(hash, s, u);
  }

  /**
   What refused a publisher: on S3 a record of the same key; on local disk too, except for names
   that are a single dot. These may meet the record of the twin or a directory.
   */
  lemma LoserSharesTheKey(hash: seq<byte> -> string, backend: Backend, s: State, t: TaskId)
    requires Reachable(hash, backend, s) && t in s.log.outcomes && s.log.outcomes[t].AlreadyExists?
    ensures t in s.log.uploads
    ensures var key, p := s.log.uploads[t].record.key, PlaceAt(s, t);
            && (p in s.disk.records <==> p !in s.disk.dirs)
            && (p in s.disk.dirs ==>
                  backend == LOCAL && (OneDot(key) || TwoDots(key)) && ValidPart(key.version + ".json"))
            && (p in s.disk.records ==>
                  s.disk.records[p].key == key
                  || (backend == LOCAL && OneDot(key) && s.disk.records[p].key == Twin(key)))
  {
    ReachableInv(hash, backend, s);
    BackendStays(hash, backend, s);
    RefusedBy(hash, s, t);
    var key, p := s.log.uploads[t].record.key, PlaceAt(s, t);
    if p in s.disk.records {
      CommittedArtifact(hash, s, p);
      var other := s.disk.records[p].key;
      WinnerRaces(hash, s, p);
      assert s.backend.place(other) == s.backend.place(key);
      StructuredIsInjective(key, other);
      SamePathIff(key, other);
    } else {
      RecordPathMayBeDirIff(key);
    }
  }

  lemma RefusedBy(hash: seq<byte> -> string, s: State, t: TaskId)
    requires Inv(hash, s) && Get(s.log.outcomes, t) == Some(AlreadyExists)
    ensures t in s.log.uploads && ValidKey(s.log.uploads[t].record.key)
    ensures PlaceAt(s, t) in s.disk.records <==> PlaceAt(s, t) !in s.disk.dirs
    ensures PlaceAt(s, t) in s.disk.dirs ==> s.backend == LOCAL && MayBeDir(PlaceAt(s, t))
  {
    hide MayBeDir, ValidKey;
    Viewed(hash, s, t);
  }

  /**
   An error does not mean that nothing was committed. It means so exactly unless the record
   was committed and then a directory could not be synced or the response was lost.
   */
  lemma ErrorCommittedIff(hash: seq<byte> -> string, backend: Backend, s: State, step: Step, s': State, t: TaskId)
    requires Reachable(hash, backend, s) && Apply(hash, s, step) == Some(s')
    requires t in s.log.uploads && t !in s.log.outcomes && Get(s'.log.outcomes, t) == Some(Error)
    ensures Won(s', t) <==> step == LoseReply(t)
    ensures Won(s', t) <==> Get(s.mem.workers, t) == Some(Committed)
  {
    ReachableInv(hash, backend, s);
    hide Inv, Apply, Won, Run;
    ErrorStep(hash, s, step, s', t);
  }

  lemma ErrorStep(hash: seq<byte> -> string, s: State, step: Step, s': State, t: TaskId)
    requires Inv(hash, s) && Apply(hash, s, step) == Some(s')
    requires t in s.log.uploads && t !in s.log.outcomes && Get(s'.log.outcomes, t) == Some(Error)
    ensures Won(s', t) <==> step == LoseReply(t)
    ensures Won(s', t) <==> Get(s.mem.workers, t) == Some(Committed)
  {
    hide Inv, DoAct, Lists, Won;
    match step
    case Accept(u, upload) =>
    case Find(reader, key) =>
    case Fetch(reader) =>
    case Tick(seconds) =>
    case Crash =>
    case LoadRecords(listing) =>
    case RemoveOrphan(b) =>
    case EndReconcile =>
    case Serve(kept) =>
    case _ => ErrorAct(hash, s, step.t, step, s', t);
  }

  lemma ErrorAct(hash: seq<byte> -> string, s: State, u: TaskId, step: Step, s': State, t: TaskId)
    requires Inv(hash, s) && DoAct(s, u, step) == Some(s') && t in s.log.uploads && !step.Accept?
    requires t !in s.log.outcomes && Get(s'.log.outcomes, t) == Some(Error)
    ensures u == t && (Won(s', t) <==> step.LoseReply?) && (Won(s', t) <==> Get(s.mem.workers, t) == Some(Committed))
  {
    hide Inv, ViewInv, ChangeOf, ViewOf, Act;
    var c := ChangeOf(s, u, step).value;
    AnswerIsOwn(s, u, c, t);
    Viewed(hash, s, t);
    NotAnswered(s, t);
    ErrorChange(hash, s, t, step, c);
    OwnChange(hash, s, t, step, c);
    ViewSays(s, t);
    ViewSays(s', t);
  }

  lemma OwnChange(hash: seq<byte> -> string, s: State, t: TaskId, step: Step, c: Change)
    requires Inv(hash, s) && t in s.log.uploads && ChangeOf(s, t, step) == Some(c)
    ensures ViewOf(Act(s, t, c), t) == ChangedView(ViewOf(s, t), c)
  {
    hide Inv, ViewInv, ViewOf, ChangeOf, Act, ChangedView, Fits, DirsMade;
    ChangeKeeps(hash, s, t, step, c);
    FitsIsBounded(hash, s, t, c);
    ActsOnOwn(s, t, c);
  }

  lemma AnswerIsOwn(s: State, u: TaskId, c: Change, t: TaskId)
    requires u in s.log.uploads && t !in s.log.outcomes && Get(Act(s, u, c).log.outcomes, t) == Some(Error)
    ensures u == t && c.answer == Some(Error) && t in Act(s, u, c).log.uploads
  {
  }

  lemma NotAnswered(s: State, t: TaskId)
    requires t in s.log.uploads && t !in s.log.outcomes
    ensures ViewOf(s, t).answer.None?
  {
  }

  lemma ViewSays(s: State, t: TaskId)
    requires t in s.log.uploads
    ensures ViewOf(s, t).won == Won(s, t) && ViewOf(s, t).phase == Get(s.mem.workers, t)
  {
  }

  lemma ErrorChange(hash: seq<byte> -> string, s: State, t: TaskId, step: Step, c: Change)
    requires t in s.log.uploads && ViewInv(hash, ViewOf(s, t)) && ViewOf(s, t).answer.None?
    requires ChangeOf(s, t, step) == Some(c) && c.answer == Some(Error)
    ensures var v := ViewOf(s, t);
            && (ChangedView(v, c).won <==> step.LoseReply?) && (ChangedView(v, c).won <==> v.phase == Some(Committed))
  {
    hide ViewOf, ViewInv, ChangeOf;
    var v := ViewOf(s, t);
    ErrorShape(s, t, step, c);
    WonInPhase(hash, v);
  }

  lemma WonInPhase(hash: seq<byte> -> string, v: View)
    requires ViewInv(hash, v) && v.answer.None? && v.phase.Some?
    ensures v.won <==> v.phase == Some(Committed)
  {
    hide Told, Agreed, Catalogs, LeavesNothing, Truthful, Stored;
  }

  lemma ErrorShape(s: State, t: TaskId, step: Step, c: Change)
    requires t in s.log.uploads && ChangeOf(s, t, step) == Some(c) && c.answer == Some(Error)
    ensures !c.commits && ViewOf(s, t).phase.Some?
    ensures step.LoseReply? <==> ViewOf(s, t).phase == Some(Committed)
  {
    hide ViewOf, DirsMade, RunningTask, FinalTask, Settled;
  }

  lemma BackendStays(hash: seq<byte> -> string, backend: Backend, s: State)
    requires Reachable(hash, backend, s)
    ensures s.backend == backend
  {
    var steps :| Run(hash, Init(backend), steps) == Some(s);
    InitInv(hash, backend);
    RunGrows(hash, Init(backend), steps, s);
  }

  /** The upload `t` is one of those that race for the place `p`. */
  ghost predicate Races(s: State, p: Place, t: TaskId) {
    t in s.log.uploads && PlaceAt(s, t) == p
  }

  /** Each of them was told that it published or that the version exists. */
  ghost predicate Decided(s: State, p: Place) {
    forall u :: Races(s, p, u) ==> u in s.log.outcomes && !s.log.outcomes[u].Error?
  }

  /** One of them was told that it published, all others that the version exists. */
  ghost predicate HasOneWinner(s: State, p: Place) {
    exists w :: Races(s, p, w) && Get(s.log.outcomes, w) == Some(Published)
                && forall u :: Races(s, p, u) && u != w ==> Get(s.log.outcomes, u) == Some(AlreadyExists)
  }

  /**
   If all who raced for a place were told that they published or that the version exists, then
   exactly one of them published, unless a directory is there: then all were refused. Of those
   that could remove their artifact only the winner has one. Other places do not matter, nor
   does what happens there at the same time.
   */
  lemma CleanRace(hash: seq<byte> -> string, backend: Backend, s: State, p: Place, t: TaskId)
    requires Reachable(hash, backend, s) && Races(s, p, t) && Decided(s, p)
    ensures HasOneWinner(s, p) <==> p !in s.disk.dirs
    ensures p in s.disk.dirs ==>
              p !in s.disk.records && forall u :: Races(s, p, u) ==> s.log.outcomes[u] == AlreadyExists
    ensures forall u :: Races(s, p, u) && u !in s.log.leftovers ==>
              (Name(s, u) in s.disk.artifacts <==> s.log.outcomes[u] == Published)
  {
    ReachableInv(hash, backend, s);
    hide Inv, Run, HasOneWinner, PlaceAt, Name;
    forall u | Races(s, p, u) ensures Placed(s, p, u) {
      Answered(hash, s, u);
    }
    assert Placed(s, p, t);
    if p in s.disk.records {
      WinnerRaces(hash, s, p);
      WonBy(s, p, s.log.winner[p]);
    } else {
      NotWon(s, p, t);
    }
  }

  /** What the answer of one racer says about the place and about its artifact. */
  ghost predicate Placed(s: State, p: Place, u: TaskId)
    requires u in s.log.uploads && u in s.log.outcomes
  {
    && (p in s.disk.records <==> p !in s.disk.dirs) && s.disk.records.Keys == s.log.winner.Keys
    && s.log.outcomes[u] == (if p in s.log.winner && s.log.winner[p] == u then Published else AlreadyExists)
    && (u !in s.log.leftovers ==> (Name(s, u) in s.disk.artifacts <==> s.log.outcomes[u] == Published))
  }

  lemma WonBy(s: State, p: Place, w: TaskId)
    requires Decided(s, p) && Races(s, p, w) && p in s.log.winner && s.log.winner[p] == w
    requires forall u :: Races(s, p, u) ==> Placed(s, p, u)
    ensures HasOneWinner(s, p)
  {
    assert Placed(s, p, w);
    assert forall u :: Races(s, p, u) && u != w ==> Placed(s, p, u);
  }

  lemma NotWon(s: State, p: Place, t: TaskId)
    requires Decided(s, p) && Races(s, p, t) && p !in s.disk.records
    requires forall u :: Races(s, p, u) ==> Placed(s, p, u)
    ensures !HasOneWinner(s, p)
    ensures forall u :: Races(s, p, u) ==> s.log.outcomes[u] == AlreadyExists
  {
    assert forall u :: Races(s, p, u) ==> Placed(s, p, u);
  }

  lemma WinnerRaces(hash: seq<byte> -> string, s: State, p: Place)
    requires Inv(hash, s) && p in s.log.winner
    ensures Races(s, p, s.log.winner[p])
  {
    hide Each, Catalogued, Reading, Idle, Rooted;
  }

  lemma Answered(hash: seq<byte> -> string, s: State, u: TaskId)
    requires Inv(hash, s) && u in s.log.uploads && u in s.log.outcomes && !s.log.outcomes[u].Error?
    ensures Placed(s, PlaceAt(s, u), u)
  {
    hide Inv, ViewInv;
    var v := ViewOf(s, u);
    Viewed(hash, s, u);
    PlaceIsOne(hash, s, PlaceAt(s, u));
    AnswerSays(hash, v);
  }

  lemma AnswerSays(hash: seq<byte> -> string, v: View)
    requires ViewInv(hash, v) && v.answer.Some? && !v.answer.value.Error?
    ensures v.place.Some? || v.blocked
    ensures v.answer.value == if v.won then Published else AlreadyExists
    ensures v.won ==> v.place.Some? && v.artifact.Some?
    ensures !v.leftover && !v.won ==> v.artifact.None?
  {
    hide Told, Agreed, Catalogs, Working;
  }

  lemma PlaceIsOne(hash: seq<byte> -> string, s: State, p: Place)
    requires Inv(hash, s)
    ensures p in s.disk.records ==> p !in s.disk.dirs
    ensures s.disk.records.Keys == s.log.winner.Keys
  {
    hide Each, MayBeDir;
  }

  ghost predicate OnlyCommittedRemain(s: State) {
    forall a :: a in s.disk.artifacts <==> exists q :: q in s.disk.records && s.disk.records[q].artifact == a
  }

  /** If that is so at every place, and all could remove their artifacts, only committed ones remain. */
  lemma CleanStore(hash: seq<byte> -> string, backend: Backend, s: State)
    requires Reachable(hash, backend, s) && s.log.leftovers == {}
    requires forall t :: t in s.log.uploads ==> Decided(s, PlaceAt(s, t))
    ensures OnlyCommittedRemain(s)
  {
    hide Inv, Run, Decided, Reachable;
    forall q | q in s.disk.records ensures s.disk.records[q].artifact in s.disk.artifacts {
      ReachableInv(hash, backend, s);
      CommittedArtifact(hash, s, q);
    }
    forall a | a in s.disk.artifacts ensures exists q :: q in s.disk.records && s.disk.records[q].artifact == a {
      var q := RecordOf(hash, backend, s, a);
    }
  }

  lemma RecordOf(hash: seq<byte> -> string, backend: Backend, s: State, a: string) returns (q: Place)
    requires Reachable(hash, backend, s) && s.log.leftovers == {} && a in s.disk.artifacts
    requires forall t :: t in s.log.uploads ==> Decided(s, PlaceAt(s, t))
    ensures q in s.disk.records && s.disk.records[q].artifact == a
  {
    hide Inv, Run, Decided, Reachable;
    ReachableInv(hash, backend, s);
    OwnerOf(hash, s, a);
    ArtifactHasWinner(hash, backend, s, s.log.owner[a]);
    q := PlaceAt(s, s.log.owner[a]);
  }

  lemma ArtifactHasWinner(hash: seq<byte> -> string, backend: Backend, s: State, t: TaskId)
    requires Reachable(hash, backend, s) && t in s.log.uploads && Decided(s, PlaceAt(s, t)) && t !in s.log.leftovers
    requires Name(s, t) in s.disk.artifacts
    ensures PlaceAt(s, t) in s.disk.records && s.disk.records[PlaceAt(s, t)].artifact == Name(s, t)
  {
    hide Reachable;
    OwnPlaceDecided(s, t);
    CleanRace(hash, backend, s, PlaceAt(s, t), t);
    OneWinner(hash, backend, s, t, t);
  }

  lemma OwnPlaceDecided(s: State, t: TaskId)
    requires t in s.log.uploads && Decided(s, PlaceAt(s, t))
    ensures Races(s, PlaceAt(s, t), t) && t in s.log.outcomes && !s.log.outcomes[t].Error?
  {
  }

  lemma OwnerOf(hash: seq<byte> -> string, s: State, a: string)
    requires Inv(hash, s) && a in s.disk.artifacts
    ensures a in s.log.owner && s.log.owner[a] in s.log.uploads && Name(s, s.log.owner[a]) == a
  {
    hide Each, Catalogued, Reading, Idle, Rooted;
  }

  /** On local disk no record is where a directory is needed for itself or another record. */
  lemma PathsAreFiles(hash: seq<byte> -> string, s: State, p: Place, q: Place)
    requires Reachable(hash, LOCAL, s) && p in s.disk.records && q in s.disk.records
    ensures p !in s.disk.dirs && q != [] && q[..|q| - 1] in s.disk.dirs
    ensures p != q ==> !IsPrefix(p, q)
  {
    hide Inv, Run;
    BackendStays(hash, LOCAL, s);
    ReachableInv(hash, LOCAL, s);
    IsRooted(hash, s);
    NoFileAbove(s.disk.records, s.disk.dirs, p, q);
  }

  lemma IsRooted(hash: seq<byte> -> string, s: State)
    requires Inv(hash, s)
    ensures Rooted(s.backend, s.disk.records, s.disk.dirs)
  {
  }

  lemma NoFileAbove(records: map<Place, Record>, dirs: set<Place>, p: Place, q: Place)
    requires Rooted(LOCAL, records, dirs) && p in records && q in records
    ensures p !in dirs && q != [] && q[..|q| - 1] in dirs
    ensures p != q ==> !IsPrefix(p, q)
  {
    hide MayBeDir;
    if p != q && IsPrefix(p, q) {
      AboveIsDir(records, dirs, q, |p|);
    }
  }

  lemma AboveIsDir(records: map<Place, Record>, dirs: set<Place>, p: Place, n: nat)
    requires Rooted(LOCAL, records, dirs) && p in records && 0 < n < |p|
    ensures p[..n] in dirs
  {
    hide MayBeDir;
    AncestorIsDir(records, dirs, p[..|p| - 1], n);
    assert p[..|p| - 1][..n] == p[..n];
  }

  lemma {:induction false} AncestorIsDir(records: map<Place, Record>, dirs: set<Place>, d: Place, n: nat)
    requires Rooted(LOCAL, records, dirs) && d in dirs && 0 < n <= |d|
    ensures d[..n] in dirs
    decreases |d|
  {
    hide MayBeDir;
    if n < |d| {
      AncestorIsDir(records, dirs, d[..|d| - 1], n);
      assert d[..|d| - 1][..n] == d[..n];
    } else {
      assert d[..n] == d;
    }
  }

  // Task status.

  /** A poll of `t` that would report this state now. */
  predicate Shows(s: State, t: TaskId, state: TaskState) {
    || (t in s.mem.cache && s.mem.cache[t].state == state)
    || (s.mem.server == Up && t in s.disk.tasks && s.disk.tasks[t].state == state)
  }

  /** The step reports `t` as completed: to a poll, or in the response to the upload. */
  predicate Reported(s: State, step: Step, t: TaskId) {
    || (step == PollCache(t) && t in s.mem.cache && s.mem.cache[t].state == Completed)
    || (step == PollStorage(t) && t in s.disk.tasks && s.disk.tasks[t].state == Completed)
    || (step.Remember? && step.t == t && t in s.mem.workers && s.mem.workers[t].Persisted?
        && s.mem.workers[t].outcome.Published?)
  }

  lemma ReportedIsSeen(hash: seq<byte> -> string, s: State, step: Step, s': State, t: TaskId)
    requires Reported(s, step, t) && Apply(hash, s, step) == Some(s')
    ensures t in s'.log.seenCompleted
  {
  }

  /**
   A task that was once reported completed is never reported failed again: not after it left
   the cache, not if its final state could not be stored, not after crashes and restarts.
   */
  lemma CompletedNeverFails(hash: seq<byte> -> string, backend: Backend, s: State, step: Step, s1: State,
                            later: seq<Step>, s2: State, t: TaskId)
    requires Reachable(hash, backend, s) && Apply(hash, s, step) == Some(s1) && Reported(s, step, t)
    requires Run(hash, s1, later) == Some(s2)
    ensures !Shows(s2, t, Failed)
    ensures t in s2.log.uploads && Evidence(ViewOf(s2, t))
  {
    ReachableInv(hash, backend, s);
    ReportedIsSeen(hash, s, step, s1, t);
    StepInv(hash, s, step, s1);
    RunGrows(hash, s1, later, s2);
    hide Apply;
    assert t in s2.log.seenCompleted;
    Viewed(hash, s2, t);
  }

  /**
   Startup settles an unfinished task as completed exactly if a record of its key and digest
   is committed, whatever was lost in the crash.
   */
  lemma SettledTellsTruth(hash: seq<byte> -> string, backend: Backend, s: State, t: TaskId)
    requires Reachable(hash, backend, s) && s.mem.server == Settling && t in s.disk.tasks && IsRunning(s.disk.tasks[t])
    ensures Settled(s.disk.tasks[t], s.mem.catalog, s.now).state ==
            if exists p :: p in s.disk.records && Matches(s.disk.tasks[t], s.disk.records[p]) then Completed else Failed
    ensures t in s.log.uploads && (Settled(s.disk.tasks[t], s.mem.catalog, s.now).state == Completed <==>
              Evidence(ViewOf(s, t)))
  {
    ReachableInv(hash, backend, s);
    hide Inv, Run;
    TaskOfUpload(hash, s, t);
    CatalogIsCommitted(hash, backend, s);
    forall p | p in s.disk.records ensures s.disk.records[p] in s.mem.catalog {
      AllListed(hash, s, p);
    }
    MatchedIsCommitted(s, s.disk.tasks[t], s.log.uploads[t].record);
    EvidenceIsCommitted(s, t);
  }

  lemma TaskOfUpload(hash: seq<byte> -> string, s: State, t: TaskId)
    requires Inv(hash, s) && t in s.disk.tasks
    ensures t in s.log.uploads && Matches(s.disk.tasks[t], s.log.uploads[t].record)
  {
    assert t in s.log.uploads;
    Viewed(hash, s, t);
    hide Inv, Stored, Working, Truthful, Agreed, Catalogs, LeavesNothing;
    assert TaskOk(ViewOf(s, t), s.disk.tasks[t]);
  }

  lemma MatchedIsCommitted(s: State, task: Task, record: Record)
    requires (forall r :: r in s.mem.catalog ==> Known(s, r)) && Matches(task, record)
    requires forall p :: p in s.disk.records ==> s.disk.records[p] in s.mem.catalog
    ensures var p := s.backend.place(record.key);
            && ((exists r :: r in s.mem.catalog && Matches(task, r)) <==>
              (exists q :: q in s.disk.records && Matches(task, s.disk.records[q])))
            && ((exists r :: r in s.mem.catalog && Matches(task, r)) <==>
              p in s.disk.records && Matches(task, s.disk.records[p]))
  {
  }

  lemma EvidenceIsCommitted(s: State, t: TaskId)
    requires t in s.log.uploads && t in s.disk.tasks && Matches(s.disk.tasks[t], s.log.uploads[t].record)
    ensures Evidence(ViewOf(s, t)) <==>
              PlaceAt(s, t) in s.disk.records && Matches(s.disk.tasks[t], s.disk.records[PlaceAt(s, t)])
  {
  }

  // The catalog.

  /** The catalog has no duplicates and lists nothing that is not committed. */
  lemma CatalogIsCommitted(hash: seq<byte> -> string, backend: Backend, s: State)
    requires Reachable(hash, backend, s)
    ensures DistinctKeys(s.mem.catalog) && forall r :: r in s.mem.catalog ==> Known(s, r)
  {
    ReachableInv(hash, backend, s);
  }

  /**
   It lists every committed record, unless a publication is between its commit and the
   catalog, or returned an error after its commit since the server started.
   */
  lemma CatalogIsComplete(hash: seq<byte> -> string, backend: Backend, s: State)
    requires Reachable(hash, backend, s) && s.mem.server != Down && s.log.unlisted == {}
    requires forall t :: t in s.mem.workers ==> s.mem.workers[t] != Committed && s.mem.workers[t] != Returned(Published)
    ensures forall r :: r in s.mem.catalog <==> Known(s, r)
  {
    CatalogIsCommitted(hash, backend, s);
    ReachableInv(hash, backend, s);
    hide Inv, Run;
    forall r | Known(s, r) ensures r in s.mem.catalog {
      KnownIsListed(hash, s, r);
    }
  }

  lemma KnownIsListed(hash: seq<byte> -> string, s: State, r: Record)
    requires Inv(hash, s) && s.mem.server != Down && s.log.unlisted == {} && Known(s, r)
    requires forall t :: t in s.mem.workers ==> s.mem.workers[t] != Committed && s.mem.workers[t] != Returned(Published)
    ensures r in s.mem.catalog
  {
    hide Inv, ViewInv;
    var p := s.backend.place(r.key);
    CommittedArtifact(hash, s, p);
    var t := s.log.winner[p];
    WinnerRaces(hash, s, p);
    Viewed(hash, s, t);
    var v := ViewOf(s, t);
    assert v.won && !v.unlisted && v.server != Down && !Pending(v);
    assert v.listed ==> r in s.mem.catalog;
    hide ViewOf;
    ListedUnlessPending(hash, v);
  }

  lemma ListedUnlessPending(hash: seq<byte> -> string, v: View)
    requires ViewInv(hash, v) && v.won && v.server != Down && !v.unlisted && !Pending(v)
    ensures v.listed
  {
  }

  // Removal of artifacts.

  /**
   An artifact disappears only as an orphan at startup, or when its own publisher removes it
   because another record is at its place or, on local disk, because its link failed.
   */
  lemma RemovalsAreOwn(hash: seq<byte> -> string, backend: Backend, s: State, step: Step, s': State, a: string)
    requires Reachable(hash, backend, s) && Apply(hash, s, step) == Some(s')
    requires a in s.disk.artifacts && a !in s'.disk.artifacts
    ensures step == RemoveOrphan(a)
            || (step.RemoveArtifact? && step.t in s.log.uploads && Name(s, step.t) == a && step.t in s.mem.workers
                && (s.mem.workers[step.t] == Rejected || (s.backend.local && s.mem.workers[step.t] == Undoing)))
    ensures forall p :: p in s.disk.records ==> s.disk.records[p].artifact != a
  {
    ReachableInv(hash, backend, s);
    StepInv(hash, s, step, s');
    StepGrows(hash, s, step, s');
    forall p | p in s.disk.records ensures s.disk.records[p].artifact != a {
      CommittedArtifact(hash, s, p);
      CommittedArtifact(hash, s', p);
    }
    if step != RemoveOrphan(a) {
      RemovalStep(hash, s, step, s', a);
    }
  }

  lemma RemovalStep(hash: seq<byte> -> string, s: State, step: Step, s': State, a: string)
    requires Inv(hash, s) && Apply(hash, s, step) == Some(s') && step != RemoveOrphan(a)
    requires a in s.disk.artifacts && a !in s'.disk.artifacts
    ensures step.RemoveArtifact? && step.t in s.log.uploads && Name(s, step.t) == a && step.t in s.mem.workers
    ensures s.mem.workers[step.t] == Rejected || (s.backend.local && s.mem.workers[step.t] == Undoing)
  {
    hide Inv, DoAct, Lists;
    match step
    case Accept(t, upload) =>
    case Find(reader, key) =>
    case Fetch(reader) =>
    case Tick(seconds) =>
    case Crash =>
    case LoadRecords(listing) =>
    case RemoveOrphan(b) =>
    case EndReconcile =>
    case Serve(kept) =>
    case _ => RemovalAct(hash, s, step.t, step, s', a);
  }

  lemma RemovalAct(hash: seq<byte> -> string, s: State, t: TaskId, step: Step, s': State, a: string)
    requires Inv(hash, s) && DoAct(s, t, step) == Some(s') && a in s.disk.artifacts && a !in s'.disk.artifacts
    ensures step.RemoveArtifact? && t in s.log.uploads && Name(s, t) == a && t in s.mem.workers
    ensures s.mem.workers[t] == Rejected || (s.backend.local && s.mem.workers[t] == Undoing)
  {
    hide Inv, ViewInv, ChangeOf, ViewOf, Act;
    var c := ChangeOf(s, t, step).value;
    Viewed(hash, s, t);
    RemovedByDelete(s, t, c, a);
    DeletingChange(hash, s, t, step, c);
  }

  lemma RemovedByDelete(s: State, t: TaskId, c: Change, a: string)
    requires t in s.log.uploads && a in s.disk.artifacts && a !in Act(s, t, c).disk.artifacts
    ensures c.file == Delete && Name(s, t) == a
  {
  }

  lemma DeletingChange(hash: seq<byte> -> string, s: State, t: TaskId, step: Step, c: Change)
    requires t in s.log.uploads && ViewInv(hash, ViewOf(s, t))
    requires ChangeOf(s, t, step) == Some(c) && c.file == Delete
    ensures step.RemoveArtifact? && t in s.mem.workers
    ensures s.mem.workers[t] == Rejected || (s.backend.local && s.mem.workers[t] == Undoing)
  {
    hide ViewInv, ChangeOf;
    DeleteShape(s, t, step, c);
    assert ViewOf(s, t).phase == Get(s.mem.workers, t) && ViewOf(s, t).local == s.backend.local;
    assert ViewOf(s, t).upload.record.size == |ViewOf(s, t).upload.source| by {
      SizeIsRight(hash, ViewOf(s, t));
    }
    hide ViewOf;
    if ViewOf(s, t).phase == Some(Undoing) {
      UndoingIsLocal(hash, ViewOf(s, t));
    }
  }

  lemma SizeIsRight(hash: seq<byte> -> string, v: View)
    requires ViewInv(hash, v)
    ensures v.upload.record.size == |v.upload.source|
  {
    hide ValidKey, Stored, Working, Truthful, Told, Agreed, Catalogs, LeavesNothing;
  }

  lemma UndoingIsLocal(hash: seq<byte> -> string, v: View)
    requires ViewInv(hash, v) && v.phase == Some(Undoing)
    ensures v.local
  {
    hide Told, Agreed, Catalogs, LeavesNothing, Truthful, Stored;
  }

  lemma DeleteShape(s: State, t: TaskId, step: Step, c: Change)
    requires t in s.log.uploads && ChangeOf(s, t, step) == Some(c) && c.file == Delete
    ensures var v := ViewOf(s, t);
            || (step.RemoveArtifact? && (v.phase == Some(Rejected) || v.phase == Some(Undoing)))
            || v.upload.record.size != |v.upload.source|
  {
    hide ViewOf, DirsMade, RunningTask, FinalTask, Settled;
  }
}
