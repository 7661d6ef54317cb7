/**
 Runs of the publication machine seen from one worker: what the steps of others leave as it
 is, and which step each of its own effects is.
 */
module PublicationRuns {
  import opened Wrappers
  import opened Sequences
  import opened Keys
  import opened Storage
  import opened Sorting
  import opened Publication
  import opened PublicationInvariant
  import opened PublicationSafety

  /** How many tasks the cache holds. */
  const CACHE_LIMIT := 4096

  // Runs.

  ghost predicate Reaches(hash: seq<byte> -> string, s: State, s': State) {
    exists steps :: Run(hash, s, steps) == Some(s')
  }

  lemma ReachesItself(hash: seq<byte> -> string, s: State)
    ensures Reaches(hash, s, s)
  {
    assert Run(hash, s, []) == Some(s);
  }

  lemma {:induction false} RunAppend(hash: seq<byte> -> string, s: State, steps: seq<Step>, s1: State,
                                     more: seq<Step>, s2: State)
    requires Run(hash, s, steps) == Some(s1) && Run(hash, s1, more) == Some(s2)
    ensures Run(hash, s, steps + more) == Some(s2)
  {
    if more == [] {
      assert steps + more == steps;
    } else {
      var n := |more| - 1;
      RunAppend(hash, s, steps, s1, more[..n], Run(hash, s1, more[..n]).value);
      assert (steps + more)[..|steps + more| - 1] == steps + more[..n];
    }
  }

  lemma ReachesOn(hash: seq<byte> -> string, s: State, s1: State, s2: State)
    requires Reaches(hash, s, s1) && Reaches(hash, s1, s2)
    ensures Reaches(hash, s, s2)
  {
    var steps :| Run(hash, s, steps) == Some(s1);
    var more :| Run(hash, s1, more) == Some(s2);
    RunAppend(hash, s, steps, s1, more, s2);
  }

  lemma OneStep(hash: seq<byte> -> string, s: State, step: Step, s': State)
    requires Apply(hash, s, step) == Some(s')
    ensures Reaches(hash, s, s')
  {
    assert [step][..0] == [];
    assert Run(hash, s, [step]) == Some(s');
  }

  /** A step that acts for the upload `t`. */
  predicate ActsFor(step: Step, t: TaskId) {
    match step
    case Accept(u, _) => u == t
    case Find(_, _) => false
    case Fetch(_) => false
    case Tick(_) => false
    case Crash => false
    case LoadRecords(_) => false
    case RemoveOrphan(_) => false
    case EndReconcile => false
    case Serve(_) => false
    case _ => step.t == t
  }

  /** A step that others may take while the worker of `t` runs. */
  predicate Foreign(step: Step, t: TaskId) {
    !ActsFor(step, t) && !step.Crash?
  }

  lemma ForeignStep(hash: seq<byte> -> string, s: State, t: TaskId, step: Step, s': State)
    requires Inv(hash, s) && t in s.log.uploads && s.mem.server == Up && Foreign(step, t)
              && Apply(hash, s, step) == Some(s')
    ensures t in s'.log.uploads && Beside(ViewOf(s, t), ViewOf(s', t))
  {
    hide Inv, ViewOf, Beside, DoAct;
    match step
    case Accept(u, upload) =>
      AcceptedView(s, u, upload, s', t, hash);
      BesideItself(ViewOf(s, t));
    case Find(_, _) =>
      SameView(s, s', t);
      BesideItself(ViewOf(s, t));
    case Fetch(_) =>
      SameView(s, s', t);
      BesideItself(ViewOf(s, t));
    case Tick(_) =>
      SameView(s, s', t);
      BesideItself(ViewOf(s, t));
    case Crash => assert false;
    case LoadRecords(_) => assert false;
    case RemoveOrphan(_) => assert false;
    case EndReconcile => assert false;
    case Serve(_) => assert false;
    case _ => ForeignAct(hash, s, t, step.t, step, s');
  }

  lemma BesideItself(v: View)
    ensures Beside(v, v)
  {
  }

  lemma ForeignAct(hash: seq<byte> -> string, s: State, t: TaskId, u: TaskId, step: Step, s': State)
    requires Inv(hash, s) && t in s.log.uploads && u != t && DoAct(s, u, step) == Some(s')
    ensures t in s'.log.uploads && Beside(ViewOf(s, t), ViewOf(s', t))
  {
    hide Act, ChangeOf, Beside;
    var c := ChangeOf(s, u, step).value;
    ChangeKeeps(hash, s, u, step, c);
    ActBeside(hash, s, u, c, t);
  }

  lemma ActBeside(hash: seq<byte> -> string, s: State, u: TaskId, c: Change, t: TaskId)
    requires Inv(hash, s) && t in s.log.uploads && u in s.log.uploads && u != t && Fits(ViewOf(s, u), c)
    ensures t in Act(s, u, c).log.uploads && Beside(ViewOf(s, t), ViewOf(Act(s, u, c), t))
  {
    assert Pending(ViewOf(s, t)) ==> Won(s, t) by {
      Viewed(hash, s, t);
    }
    hide Each, Beside, Catalogued, Reading, Idle;
    ActsBesideOthers(hash, s, u, c, t);
  }

  lemma BesideOn(v: View, v1: View, v2: View)
    requires Beside(v, v1) && Beside(v1, v2)
    ensures Beside(v, v2)
  {
  }

  /** While others act, the worker's own view changes only as `Beside` says. */
  lemma {:induction false} ForeignRun(hash: seq<byte> -> string, s: State, t: TaskId, steps: seq<Step>, s': State)
    requires Inv(hash, s) && t in s.log.uploads && s.mem.server == Up
    requires (forall step :: step in steps ==> Foreign(step, t)) && Run(hash, s, steps) == Some(s')
    ensures Inv(hash, s') && t in s'.log.uploads && Beside(ViewOf(s, t), ViewOf(s', t)) && s'.mem.server == Up
  {
    hide Inv, Beside, ViewOf, Apply;
    if steps == [] {
      BesideItself(ViewOf(s, t));
    } else {
      var n := |steps| - 1;
      var before := Run(hash, s, steps[..n]).value;
      ForeignRun(hash, s, t, steps[..n], before);
      StepInv(hash, before, steps[n], s');
      ForeignStep(hash, before, t, steps[n], s');
      BesideOn(ViewOf(s, t), ViewOf(before, t), ViewOf(s', t));
      SameServer(ViewOf(before, t), ViewOf(s', t), before, s', t);
    }
  }

  lemma SameServer(v: View, v': View, s: State, s': State, t: TaskId)
    requires t in s.log.uploads && t in s'.log.uploads && v == ViewOf(s, t) && v' == ViewOf(s', t) && Beside(v, v')
    ensures s'.mem.server == s.mem.server
  {
  }

  /** A step that others may take while a reader is at work. */
  predicate Unread(step: Step, reader: nat) {
    !step.Crash? && !(step.Find? && step.reader == reader) && !(step.Fetch? && step.reader == reader)
  }

  lemma UnreadStep(hash: seq<byte> -> string, s: State, reader: nat, step: Step, s': State)
    requires Apply(hash, s, step) == Some(s') && Unread(step, reader) && s.mem.server == Up
    ensures Get(s'.mem.readers, reader) == Get(s.mem.readers, reader) && s'.mem.server == Up
  {
    hide DoAct, Lists, Inspected;
    match step
    case Accept(_, _) =>
    case Find(_, _) =>
    case Fetch(_) =>
    case Tick(_) =>
    case Crash =>
    case LoadRecords(_) =>
    case RemoveOrphan(_) =>
    case EndReconcile =>
    case Serve(_) =>
    case _ => ActUnread(s, step.t, step, s');
  }

  lemma ActUnread(s: State, t: TaskId, step: Step, s': State)
    requires DoAct(s, t, step) == Some(s')
    ensures s'.mem.readers == s.mem.readers && s'.mem.server == s.mem.server
  {
    hide ChangeOf;
  }

  /** Whatever others do, a reader keeps the record that it found, and records only grow. */
  lemma {:induction false} UnreadRun(hash: seq<byte> -> string, s: State, reader: nat, steps: seq<Step>, s': State)
    requires Inv(hash, s) && Run(hash, s, steps) == Some(s') && s.mem.server == Up
    requires forall step :: step in steps ==> Unread(step, reader)
    ensures Inv(hash, s') && Get(s'.mem.readers, reader) == Get(s.mem.readers, reader) && s'.mem.server == Up
    ensures Grows(s, s') && Reaches(hash, s, s')
  {
    hide Inv, Apply;
    RunGrows(hash, s, steps, s');
    if steps != [] {
      var n := |steps| - 1;
      var before := Run(hash, s, steps[..n]).value;
      UnreadRun(hash, s, reader, steps[..n], before);
      UnreadStep(hash, before, reader, steps[n], s');
    }
  }

  /** The artifact of a record that a reader found is there and passes the integrity check. */
  lemma FoundIsSound(hash: seq<byte> -> string, s: State, reader: nat)
    requires Inv(hash, s) && reader in s.mem.readers
    ensures Sound(hash, s, s.mem.readers[reader]) && Known(s, s.mem.readers[reader])
  {
    var p := s.backend.place(s.mem.readers[reader].key);
    assert Known(s, s.mem.readers[reader]);
    CommittedArtifact(hash, s, p);
    Viewed(hash, s, s.log.winner[p]);
  }

  /** The step and its change, taken in a state that was reached before. */
  lemma Taken(hash: seq<byte> -> string, start: State, s: State, t: TaskId, step: Step, c: Change)
    requires Inv(hash, s) && Reaches(hash, start, s) && t in s.log.uploads
    requires ActsFor(step, t) && !step.Accept? && ChangeOf(s, t, step) == Some(c)
    ensures var s' := Act(s, t, c);
            && Inv(hash, s') && Reaches(hash, start, s') && t in s'.log.uploads
            && ViewOf(s', t) == ChangedView(ViewOf(s, t), c) && (c.made == 0 ==> s'.disk.dirs == s.disk.dirs)
  {
    hide Inv, Act, ViewOf, ChangedView, ChangeOf, Run;
    var s' := Act(s, t, c);
    ActInv(hash, s, t, step, s');
    OneStep(hash, s, step, s');
    ReachesOn(hash, start, s, s');
    KeepsUploads(s, t, c);
    OwnChange(hash, s, t, step, c);
  }

  lemma KeepsUploads(s: State, t: TaskId, c: Change)
    requires t in s.log.uploads
    ensures t in Act(s, t, c).log.uploads && (c.made == 0 ==> Act(s, t, c).disk.dirs == s.disk.dirs)
  {
  }

  lemma OthersRun(hash: seq<byte> -> string, s: State, t: TaskId, steps: seq<Step>, s': State)
    requires Inv(hash, s) && t in s.log.uploads && s.mem.server == Up
    requires (forall step :: step in steps ==> Foreign(step, t)) && Run(hash, s, steps) == Some(s')
    ensures Inv(hash, s') && t in s'.log.uploads && Beside(ViewOf(s, t), ViewOf(s', t)) && Reaches(hash, s, s')
    ensures s'.mem.server == Up && s'.backend == s.backend
    ensures Get(s'.mem.workers, t) == Get(s.mem.workers, t) && s'.log.uploads[t] == s.log.uploads[t]
    ensures Written(s', t) == Written(s, t) && s.disk.dirs <= s'.disk.dirs
    ensures Get(s'.disk.tasks, t) == Get(s.disk.tasks, t)
  {
    hide Inv, Apply;
    ForeignRun(hash, s, t, steps, s');
    RunGrows(hash, s, steps, s');
    hide Run;
    assert ViewOf(s', t).phase == ViewOf(s, t).phase && ViewOf(s', t).artifact == ViewOf(s, t).artifact;
  }

  // What each effect is in the machine.

  function Written(s: State, t: TaskId): Option<seq<byte>>
    requires t in s.log.uploads
  {
    if Name(s, t) in s.disk.artifacts then Some(s.disk.artifacts[Name(s, t)].bytes) else None
  }

  ghost predicate Here(hash: seq<byte> -> string, s: State, t: TaskId, phase: Phase) {
    Inv(hash, s) && t in s.log.uploads && Get(s.mem.workers, t) == Some(phase)
  }

  lemma MakeDirectoriesChange(s: State, t: TaskId, made: nat, result: Making)
    requires t in s.log.uploads && s.backend.local && Get(s.mem.workers, t) == Some(Begun)
    requires var k := s.log.uploads[t].record.key;
             && made <= |DirsMade(k)| && (made > 0 ==> forall d :: d in DirsMade(k) ==> d !in s.disk.records)
             && (result.Made? ==> made == |DirsMade(k)| && (RecordDir(k) in s.disk.dirs || k.name != "."))
    ensures ChangeOf(s, t, MakeDirectories(t, made, result)) ==
            Some((match result case More => To(Some(Begun)) case Made => To(Some(Located))
              case NotMade => Return(Error)).(
                   made := made))
  {
    hide DirsMade, RecordDir;
  }

  /** Where the next directory is missing and the outer ones are there, no record is in the way further down. */
  lemma NothingInTheWay(hash: seq<byte> -> string, s: State, k: Key, i: nat)
    requires Inv(hash, s) && s.backend.local && i <= |DirsMade(k)|
    requires forall j :: 0 <= j < i ==> DirsMade(k)[j] in s.disk.dirs
    requires i < |DirsMade(k)| ==> DirsMade(k)[i] !in s.disk.dirs && DirsMade(k)[i] !in s.disk.records
    ensures forall d :: d in DirsMade(k) ==> d !in s.disk.records
    ensures s.disk.dirs + FirstDirs(k, i) == s.disk.dirs
    ensures i < |DirsMade(k)| ==> s.disk.dirs + FirstDirs(k, i + 1) == s.disk.dirs + {DirsMade(k)[i]}
  {
    hide Inv, RecordDir, MayBeDir, RecordPath, Rooted;
    IsRooted(hash, s);
    IsBackend(s.backend, s.disk.records, s.disk.dirs);
    forall j | 0 <= j < |DirsMade(k)| ensures DirsMade(k)[j] !in s.disk.records {
      var p := DirsMade(k)[j];
      PlaceIsOne(hash, s, p);
      if j > i && p in s.disk.records {
        assert p[..i + 1] == DirsMade(k)[i];
        AboveIsDir(s.disk.records, s.disk.dirs, p, i + 1);
      }
    }
  }

  lemma CreateChange(s: State, t: TaskId)
    requires t in s.log.uploads && Get(s.mem.workers, t) == Some(Located)
    ensures ChangeOf(s, t, Create(t)) ==
            Some(if Name(s, t) in s.disk.artifacts then Return(Error) else To(Some(Copying)).(file := Fill([])))
  {
  }

  lemma CopyChange(s: State, t: TaskId, upto: nat)
    requires t in s.log.uploads && Get(s.mem.workers, t) == Some(Copying) && Written(s, t).Some?
    requires |Written(s, t).value| <= upto <= |s.log.uploads[t].source|
    ensures ChangeOf(s, t, Copy(t, upto)) == Some(To(Some(Copying)).(file := Fill(s.log.uploads[t].source[..upto])))
  {
  }

  lemma CheckSizeChange(s: State, t: TaskId, removed: bool)
    requires t in s.log.uploads && Get(s.mem.workers, t) == Some(Copying) && Written(s, t).Some?
    requires |Written(s, t).value| == |s.log.uploads[t].source|
    ensures ChangeOf(s, t, CheckSize(t, removed)) ==
            Some(if |s.log.uploads[t].source| == s.log.uploads[t].record.size then To(Some(Copied))
                 else Return(Error).(file := if removed then Delete else Keep, leaves := !removed))
  {
  }

  lemma PrepareChange(s: State, t: TaskId)
    requires t in s.log.uploads && Get(s.mem.workers, t) == Some(Copied)
    ensures ChangeOf(s, t, Prepare(t)) == Some(To(Some(Prepared)))
  {
  }

  lemma StoreChange(s: State, t: TaskId, effect: bool, reply: bool)
    requires t in s.log.uploads && Get(s.mem.workers, t) == Some(Begun) && !s.backend.local && (reply ==> effect)
    ensures ChangeOf(s, t, StoreObject(t, effect, reply)) ==
            Some((if reply then To(Some(Prepared)) else Return(Error)).(
                   file := if effect then Fill(s.log.uploads[t].source) else Keep))
  {
  }

  lemma CommitChange(s: State, t: TaskId)
    requires t in s.log.uploads && Get(s.mem.workers, t) == Some(Prepared)
    ensures ChangeOf(s, t, Commit(t)) ==
            Some(if PlaceAt(s, t) in s.disk.records || PlaceAt(s, t) in s.disk.dirs then To(Some(Rejected))
                 else To(Some(Committed)).(commits := true))
  {
  }

  lemma CommitErrorChange(s: State, t: TaskId)
    requires t in s.log.uploads && Get(s.mem.workers, t) == Some(Prepared)
    ensures ChangeOf(s, t, CommitError(t)) ==
            Some(if s.backend.local then To(Some(Undoing)) else Return(Error))
  {
  }

  lemma RemoveChange(s: State, t: TaskId, phase: Phase, removed: bool)
    requires t in s.log.uploads && Get(s.mem.workers, t) == Some(phase) && (phase.Rejected? || phase.Undoing?)
    ensures ChangeOf(s, t, RemoveArtifact(t, removed)) ==
            Some(Return(if phase.Rejected? then AlreadyExists else Error).(
                   file := if removed then Delete else Keep, leaves := !removed))
  {
  }

  lemma AnswerChange(s: State, t: TaskId)
    requires t in s.log.uploads && Get(s.mem.workers, t) == Some(Committed)
    ensures ChangeOf(s, t, Acknowledge(t)) == Some(Return(Published))
    ensures ChangeOf(s, t, LoseReply(t)) == Some(Return(Error).(unlists := true))
  {
  }

  lemma GiveUpChange(s: State, t: TaskId, phase: Phase)
    requires t in s.log.uploads && Get(s.mem.workers, t) == Some(phase)
              && (phase.Begun? || phase.Located? || phase.Copying? || phase.Copied?)
    ensures ChangeOf(s, t, GiveUp(t)) == Some(Return(Error))
  {
  }

  lemma PutRunningChange(s: State, t: TaskId, effect: bool, reply: bool)
    requires t in s.log.uploads && Get(s.mem.workers, t) == Some(Accepted) && (reply ==> effect)
    ensures ChangeOf(s, t, PutRunning(t, effect, reply)) ==
            Some(To(if reply then Some(Begun) else None).(
                   task := if effect then Some(RunningTask(s.log.uploads[t])) else None))
  {
  }

  lemma PushChange(s: State, t: TaskId, outcome: Outcome)
    requires t in s.log.uploads && Get(s.mem.workers, t) == Some(Returned(outcome))
    ensures ChangeOf(s, t, PushCatalog(t)) == Some(To(Some(Pushed(outcome, s.now))).(lists := outcome.Published?))
  {
  }

  lemma PutFinalChange(s: State, t: TaskId, outcome: Outcome, at: nat, effect: bool)
    requires t in s.log.uploads && Get(s.mem.workers, t) == Some(Pushed(outcome, at))
    ensures ChangeOf(s, t, PutFinal(t, effect)) ==
            Some(To(Some(Persisted(outcome, at))).(
                   task := if effect then Some(FinalTask(s.log.uploads[t], outcome, at)) else None))
  {
  }

  lemma RememberChange(s: State, t: TaskId, outcome: Outcome, at: nat, evicted: set<TaskId>)
    requires t in s.log.uploads && Get(s.mem.workers, t) == Some(Persisted(outcome, at))
    ensures ChangeOf(s, t, Remember(t, evicted)) ==
            Some(To(None).(cached := Some(FinalTask(s.log.uploads[t], outcome, at)), evicted := evicted,
                           sees := outcome.Published?))
  {
  }

  /**
   What the result of a publication tells, from the invariant alone. An error leaves open
   whether the record is committed, but then its artifact is complete.
   */
  ghost predicate Means(s: State, t: TaskId, outcome: Outcome)
    requires t in s.log.uploads
  {
    var p, upload := PlaceAt(s, t), s.log.uploads[t];
    match outcome
    case Published => Known(s, upload.record) && Written(s, t) == Some(upload.source)
    case AlreadyExists =>
      && (t in s.log.leftovers || Written(s, t).None?) && !Known(s, upload.record)
      && if p in s.disk.dirs then s.backend.local && p !in s.disk.records
         else p in s.disk.records && Get(s.log.winner, p) != Some(t)
    case Error =>
      && (Known(s, upload.record) <==> Get(s.log.winner, p) == Some(t))
      && (Known(s, upload.record) ==>
            Written(s, t) == Some(upload.source) && (upload.record in s.mem.catalog || p in s.log.unlisted))
  }

  lemma RecordsAreValid(hash: seq<byte> -> string, s: State)
    requires Inv(hash, s)
    ensures forall p :: p in s.disk.records ==> ValidKey(s.disk.records[p].key)
  {
    hide ValidKey;
    forall p | p in s.disk.records ensures ValidKey(s.disk.records[p].key) {
      CommittedArtifact(hash, s, p);
      Viewed(hash, s, s.log.winner[p]);
    }
  }

  lemma AnswerMeans(hash: seq<byte> -> string, s: State, t: TaskId, outcome: Outcome)
    requires Inv(hash, s) && t in s.log.uploads && Get(s.log.outcomes, t) == Some(outcome) && s.mem.server == Up
    requires t in s.mem.workers ==> Finished(s.mem.workers[t])
    ensures Means(s, t, outcome)
  {
    var v := ViewOf(s, t);
    Viewed(hash, s, t);
    KnownIfWon(hash, s, t);
    PlaceIsOne(hash, s, PlaceAt(s, t));
    OnlyLocalDirs(hash, s);
    hide Inv, ViewInv, Won;
    assert v.answer == Some(outcome) && v.won == Won(s, t) && (v.phase.Some? ==> Finished(v.phase.value));
    assert v.place == Get(s.disk.records, PlaceAt(s, t)) && v.artifact == Written(s, t);
    assert v.server == s.mem.server && (v.blocked <==> PlaceAt(s, t) in s.disk.dirs);
    assert (v.leftover <==> t in s.log.leftovers) && (v.unlisted <==> PlaceAt(s, t) in s.log.unlisted);
    assert v.listed <==> s.log.uploads[t].record in s.mem.catalog;
    hide ViewOf;
    AnswerOnView(hash, v, outcome);
    WonSays(s, t);
  }

  lemma WonSays(s: State, t: TaskId)
    requires t in s.log.uploads
    ensures Won(s, t) <==> Get(s.log.winner, PlaceAt(s, t)) == Some(t)
  {
  }

  lemma OnlyLocalDirs(hash: seq<byte> -> string, s: State)
    requires Inv(hash, s)
    ensures s.disk.dirs != {} ==> s.backend.local
  {
  }

  /** Records of different uploads differ in their artifacts. */
  lemma KnownIfWon(hash: seq<byte> -> string, s: State, t: TaskId)
    requires Inv(hash, s) && t in s.log.uploads
    ensures Known(s, s.log.uploads[t].record) <==> Won(s, t)
  {
    var p := PlaceAt(s, t);
    if p in s.disk.records {
      CommittedArtifact(hash, s, p);
      assert Name(s, s.log.winner[p]) == s.disk.records[p].artifact;
    }
    hide Each, Catalogued, Reading, Idle, Rooted;
  }

  lemma AnswerOnView(hash: seq<byte> -> string, v: View, outcome: Outcome)
    requires ViewInv(hash, v) && v.answer == Some(outcome) && (v.phase.Some? ==> Finished(v.phase.value))
    requires v.server == Up
    ensures outcome.Published? ==> v.won && v.artifact == Some(v.upload.source)
    ensures outcome.AlreadyExists? ==> (v.place.Some? || v.blocked) && !v.won && (v.leftover || v.artifact.None?)
    ensures outcome.Error? && v.won ==> v.artifact == Some(v.upload.source) && (v.listed || v.unlisted)
  {
  }

  lemma ResultMeans(hash: seq<byte> -> string, s: State, t: TaskId, outcome: Outcome)
    requires Here(hash, s, t, Returned(outcome))
    ensures Means(s, t, outcome)
  {
    Viewed(hash, s, t);
    assert ViewOf(s, t).answer == Some(outcome);
    hide Inv, Means;
    AnswerMeans(hash, s, t, outcome);
  }

  lemma AnswerKnown(hash: seq<byte> -> string, s: State, t: TaskId, outcome: Outcome, at: nat)
    requires Here(hash, s, t, Persisted(outcome, at))
    ensures Get(s.log.outcomes, t) == Some(outcome)
  {
    Viewed(hash, s, t);
    assert ViewOf(s, t).answer == Some(outcome);
  }

  // Startup.

  /** The task was settled at some time between. */
  predicate SettledDuring(before: Task, after: Task, catalog: seq<Record>, since: nat, until: nat) {
    after == before.(state := after.state, finished := after.finished, finishedAt := after.finishedAt)
    && if IsRunning(before) then
         after.finishedAt.Some? && since <= after.finishedAt.value <= until
         && after == Settled(before, catalog, after.finishedAt.value)
       else after == before
  }

  lemma SettledLonger(before: Task, after: Task, catalog: seq<Record>, since: nat, until: nat, t0: nat, t1: nat)
    requires SettledDuring(before, after, catalog, since, until) && t0 <= since && until <= t1
    ensures SettledDuring(before, after, catalog, t0, t1)
  {
  }

  ghost predicate AllSettled(before: map<TaskId, Task>, after: map<TaskId, Task>, catalog: seq<Record>,
                             since: nat, until: nat) {
    after.Keys == before.Keys
    && forall u :: u in before ==> SettledDuring(before[u], after[u], catalog, since, until)
  }

  lemma LaterSettled(before: map<TaskId, Task>, after: map<TaskId, Task>, catalog: seq<Record>,
                     since: nat, until: nat, now: nat)
    requires after.Keys == before.Keys && until <= now
    ensures forall u :: u in after && SettledDuring(before[u], after[u], catalog, since, until) ==>
              SettledDuring(before[u], after[u], catalog, since, now)
  {
  }

  /** Some tasks were settled in that time, and the others stayed as they were. */
  ghost predicate SomeSettled(before: map<TaskId, Task>, after: map<TaskId, Task>, catalog: seq<Record>,
                              since: nat, until: nat) {
    after.Keys == before.Keys
    && forall u :: u in before ==> after[u] == before[u] || SettledDuring(before[u], after[u], catalog, since, until)
  }

  lemma NoneSettled(tasks: map<TaskId, Task>, catalog: seq<Record>, now: nat)
    ensures SomeSettled(tasks, tasks, catalog, now, now)
  {
  }

  /** After tasks were reconciled none is running. */
  lemma NoneRuns(before: map<TaskId, Task>, after: map<TaskId, Task>, catalog: seq<Record>, since: nat, until: nat)
    requires AllSettled(before, after, catalog, since, until)
    ensures forall u :: u in after ==> !IsRunning(after[u])
  {
    forall u | u in after ensures !IsRunning(after[u]) {
      assert SettledDuring(before[u], after[u], catalog, since, until);
    }
  }

  /** Reconciling them again, whenever and with whatever catalog, changes nothing. */
  lemma SecondRunChangesNothing(tasks: map<TaskId, Task>, once: map<TaskId, Task>, twice: map<TaskId, Task>,
                                catalog: seq<Record>, t0: nat, t1: nat, other: seq<Record>, t2: nat, t3: nat)
    requires AllSettled(tasks, once, catalog, t0, t1) && AllSettled(once, twice, other, t2, t3)
    ensures twice == once
  {
    NoneRuns(tasks, once, catalog, t0, t1);
    assert forall u :: u in once ==> SettledDuring(once[u], twice[u], other, t2, t3);
  }

  lemma SettledChanges(task: Task, catalog: seq<Record>, now: nat)
    requires IsRunning(task)
    ensures var after := Settled(task, catalog, now);
            && after == task.(state := after.state, finished := after.finished, finishedAt := Some(now))
            && after.finishedAt == Some(now)
  {
  }

  lemma WorldStep(hash: seq<byte> -> string, start: State, s: State, step: Step, s': State)
    requires Inv(hash, s) && Reaches(hash, start, s) && Apply(hash, s, step) == Some(s')
    ensures Inv(hash, s') && Reaches(hash, start, s')
  {
    hide Inv, Apply, Run;
    StepInv(hash, s, step, s');
    OneStep(hash, s, step, s');
    ReachesOn(hash, start, s, s');
  }

  lemma TickStep(hash: seq<byte> -> string, start: State, s: State, seconds: nat, s': State)
    requires Inv(hash, s) && Reaches(hash, start, s) && s' == s.(now := s.now + seconds)
    ensures Inv(hash, s') && Reaches(hash, start, s')
  {
    hide Inv, Run;
    WorldStep(hash, start, s, Tick(seconds), s');
  }

  lemma ReadStep(hash: seq<byte> -> string, start: State, s: State, reader: nat, key: Key, s': State)
    requires Inv(hash, s) && Reaches(hash, start, s)
    requires DoFind(s, reader, key) == Some(s') || DoFetch(s, reader) == Some(s')
    ensures Inv(hash, s') && Reaches(hash, start, s')
  {
    hide Inv, Run, DoFind, DoFetch;
    WorldStep(hash, start, s, if DoFind(s, reader, key) == Some(s') then Find(reader, key) else Fetch(reader), s');
  }

  lemma AcceptStep(hash: seq<byte> -> string, s: State, t: TaskId, upload: Upload, s': State)
    requires Inv(hash, s) && DoAccept(hash, s, t, upload) == Some(s')
    ensures Inv(hash, s') && Reaches(hash, s, s')
  {
    hide Inv, Run, DoAccept;
    ReachesItself(hash, s);
    WorldStep(hash, s, s, Accept(t, upload), s');
  }

  lemma CrashStep(hash: seq<byte> -> string, s: State, s': State)
    requires Inv(hash, s) && DoCrash(s) == Some(s')
    ensures Inv(hash, s') && Reaches(hash, s, s')
  {
    hide Inv, Run, DoCrash;
    ReachesItself(hash, s);
    WorldStep(hash, s, s, Crash, s');
  }

  lemma OrphanStep(hash: seq<byte> -> string, start: State, s: State, a: string, s': State)
    requires Inv(hash, s) && Reaches(hash, start, s) && DoRemoveOrphan(s, a) == Some(s')
    ensures Inv(hash, s') && Reaches(hash, start, s')
  {
    hide Inv, Run;
    WorldStep(hash, start, s, RemoveOrphan(a), s');
  }

  predicate AllOrphans(s: State, gone: set<string>) {
    forall a :: a in gone && a in s.disk.artifacts ==>
      a !in ArtifactsOf(s.mem.catalog) && s.disk.artifacts[a].modified < Cutoff(s.now)
  }

  function Without(s: State, gone: set<string>): State {
    s.(disk := s.disk.(artifacts := s.disk.artifacts - gone))
  }

  /** Removing any orphans at startup is a run of single removals. */
  lemma {:induction false} OrphansRun(hash: seq<byte> -> string, s: State, gone: set<string>)
    requires Inv(hash, s) && s.mem.server == Loading && AllOrphans(s, gone)
    ensures Inv(hash, Without(s, gone)) && Reaches(hash, s, Without(s, gone))
    decreases gone
  {
    hide Inv, Run, Reaches, ArtifactsOf, Cutoff;
    if gone == {} {
      assert Without(s, {}) == s;
      ReachesItself(hash, s);
    } else {
      var a :| a in gone;
      OrphansRun(hash, s, gone - {a});
      var before := Without(s, gone - {a});
      if a in s.disk.artifacts {
        assert Without(before, {a}) == Without(s, gone);
        OrphanStep(hash, s, before, a, Without(s, gone));
      } else {
        assert s.disk.artifacts - (gone - {a}) == s.disk.artifacts - gone;
      }
    }
  }

  /** The artifacts as the removal at startup sees them. */
  function Times(artifacts: map<string, Artifact>): map<string, nat> {
    map a | a in artifacts :: artifacts[a].modified
  }

  /** A listing may lack artifacts, names or times, but each time in it is right. */
  ghost predicate Right(items: seq<Listed>, times: map<string, nat>) {
    forall i :: 0 <= i < |items| && items[i].name.Some? && items[i].modified.Some? && items[i].name.value in times ==>
      times[items[i].name.value] == items[i].modified.value
  }

  /** So what the loops of `reconcile` remove, to the end or to a failure, is a run as well. */
  lemma ReconcileRuns(hash: seq<byte> -> string, s: State, items: seq<Listed>, gone: set<string>)
    requires Inv(hash, s) && s.mem.server == Loading && Right(items, Times(s.disk.artifacts))
    requires gone <= Orphans(items, ArtifactsOf(s.mem.catalog), Cutoff(s.now))
    ensures Inv(hash, Without(s, gone)) && Reaches(hash, s, Without(s, gone)) && AllOrphans(s, gone)
  {
    hide Inv, Run, Reaches, ArtifactsOf, Cutoff, Without;
    OrphansRun(hash, s, gone);
  }

  lemma SettleStep(hash: seq<byte> -> string, start: State, s: State, t: TaskId, s': State)
    requires Inv(hash, s) && Reaches(hash, start, s) && s.mem.server == Settling && t in s.disk.tasks
    requires IsRunning(s.disk.tasks[t])
    requires s' == s.(disk := s.disk.(tasks := s.disk.tasks[t := Settled(s.disk.tasks[t], s.mem.catalog, s.now)]))
    ensures Inv(hash, s') && Reaches(hash, start, s')
  {
    hide Inv, Run, Settled, Act, ChangeOf, ViewOf, ChangedView, IsRunning, Reaches;
    SettlesAlone(hash, s, t);
    SettleChange(s, t);
    SettleAct(s, t, Settled(s.disk.tasks[t], s.mem.catalog, s.now), s');
    Taken(hash, start, s, t, SettleTask(t), To(None).(task := Some(Settled(s.disk.tasks[t], s.mem.catalog, s.now))));
  }

  lemma SettlesAlone(hash: seq<byte> -> string, s: State, t: TaskId)
    requires Inv(hash, s) && s.mem.server == Settling && t in s.disk.tasks
    ensures t in s.log.uploads && s.mem.workers == map[]
  {
    hide Each, Catalogued, Reading;
  }

  lemma SettleChange(s: State, t: TaskId)
    requires t in s.log.uploads && s.mem.workers == map[] && s.mem.server == Settling && t in s.disk.tasks
    requires IsRunning(s.disk.tasks[t])
    ensures ChangeOf(s, t, SettleTask(t)) ==
            Some(To(None).(task := Some(Settled(s.disk.tasks[t], s.mem.catalog, s.now))))
  {
    hide Settled;
  }

  lemma SettleAct(s: State, t: TaskId, task: Task, s': State)
    requires t in s.log.uploads && s.mem.workers == map[] && s' == s.(disk := s.disk.(tasks := s.disk.tasks[t := task]))
    ensures Act(s, t, To(None).(task := Some(task))) == s'
  {
    assert s.mem.workers - {t} == s.mem.workers;
  }

  lemma LoadStep(hash: seq<byte> -> string, s: State, listing: seq<Record>, s': State)
    requires Inv(hash, s) && DoLoadRecords(s, listing) == Some(s')
    ensures Inv(hash, s') && Reaches(hash, s, s')
  {
    hide Inv, Run;
    ReachesItself(hash, s);
    WorldStep(hash, s, s, LoadRecords(listing), s');
  }

  lemma EndStep(hash: seq<byte> -> string, start: State, s: State, s': State)
    requires Inv(hash, s) && Reaches(hash, start, s) && DoEndReconcile(s) == Some(s')
    ensures Inv(hash, s') && Reaches(hash, start, s')
  {
    hide Inv, Run;
    WorldStep(hash, start, s, EndReconcile, s');
  }

  lemma ServeStep(hash: seq<byte> -> string, start: State, s: State, kept: set<TaskId>, s': State)
    requires Inv(hash, s) && Reaches(hash, start, s) && DoServe(s, kept) == Some(s')
    ensures Inv(hash, s') && Reaches(hash, start, s')
  {
    hide Inv, Run;
    WorldStep(hash, start, s, Serve(kept), s');
  }

  predicate LaterFirst(x: (TaskId, Task), y: (TaskId, Task)) {
    x.1.startedAt >= y.1.startedAt
  }

  lemma LaterFirstIsPreorder()
    ensures Preorder(LaterFirst)
  {
  }

  ghost predicate FirstOf(sorted: seq<(TaskId, Task)>, kept: set<TaskId>) {
    && (forall k :: 0 <= k < |sorted| && k < CACHE_LIMIT ==> sorted[k].0 in kept)
    && (forall u :: u in kept ==> exists k :: 0 <= k < |sorted| && k < CACHE_LIMIT && sorted[k].0 == u)
  }

  ghost predicate AllLoaded(tasks: map<TaskId, Task>, loaded: seq<(TaskId, Task)>) {
    && |loaded| == |tasks| && (forall x :: x in loaded ==> x.0 in tasks && x.1 == tasks[x.0])
    && (forall u :: u in tasks ==> (u, tasks[u]) in loaded) && (forall x :: multiset(loaded)[x] <= 1)
  }

  lemma LoadedOnce(tasks: map<TaskId, Task>, loaded: seq<(TaskId, Task)>)
    requires AllLoaded(tasks, loaded)
    ensures forall i, j :: 0 <= i < j < |loaded| ==> loaded[i].0 != loaded[j].0
  {
    forall i, j | 0 <= i < j < |loaded| ensures loaded[i].0 != loaded[j].0 {
      assert loaded[i] in loaded && loaded[j] in loaded;
      TwiceCounts(loaded, i, j);
      assert loaded[i] == (loaded[i].0, tasks[loaded[i].0]) && loaded[j] == (loaded[j].0, tasks[loaded[j].0]);
    }
  }

  lemma StillAllLoaded(tasks: map<TaskId, Task>, loaded: seq<(TaskId, Task)>, sorted: seq<(TaskId, Task)>)
    requires AllLoaded(tasks, loaded) && multiset(sorted) == multiset(loaded) && |sorted| == |loaded|
    ensures AllLoaded(tasks, sorted)
  {
    SameElements(loaded, sorted);
  }

  lemma KeptIsTask(tasks: map<TaskId, Task>, sorted: seq<(TaskId, Task)>, i: nat)
    requires AllLoaded(tasks, sorted) && i < |sorted|
    ensures sorted[i].0 in tasks && sorted[i].1 == tasks[sorted[i].0]
  {
    assert sorted[i] in sorted;
  }

  lemma TaskIsLoaded(tasks: map<TaskId, Task>, sorted: seq<(TaskId, Task)>, u: TaskId) returns (j: nat)
    requires AllLoaded(tasks, sorted) && u in tasks
    ensures j < |sorted| && sorted[j] == (u, tasks[u])
  {
    assert (u, tasks[u]) in sorted;
    j :| 0 <= j < |sorted| && sorted[j] == (u, tasks[u]);
  }

  /** The one that is kept is in front of the one that is not, and so started no earlier. */
  lemma KeptIsLater(tasks: map<TaskId, Task>, sorted: seq<(TaskId, Task)>, kept: set<TaskId>, i: nat, j: nat)
    requires Ordered(sorted, LaterFirst) && FirstOf(sorted, kept)
    requires i < |sorted| && i < CACHE_LIMIT && j < |sorted| && sorted[j].0 !in kept
    ensures sorted[i].1.startedAt >= sorted[j].1.startedAt
  {
    assert i < j;
    assert LaterFirst(sorted[i], sorted[j]);
  }

  lemma FirstAreLatest(tasks: map<TaskId, Task>, sorted: seq<(TaskId, Task)>, kept: set<TaskId>)
    requires AllLoaded(tasks, sorted) && Ordered(sorted, LaterFirst) && FirstOf(sorted, kept)
    ensures kept <= tasks.Keys && (|tasks| <= CACHE_LIMIT ==> kept == tasks.Keys)
    ensures forall u, w :: u in kept && w in tasks && w !in kept ==> tasks[u].startedAt >= tasks[w].startedAt
  {
    hide AllLoaded, Ordered, LaterFirst, FirstOf;
    forall u | u in kept ensures u in tasks {
      var i := KeptPlace(sorted, kept, u);
      KeptIsTask(tasks, sorted, i);
    }
    forall u, w | u in kept && w in tasks && w !in kept ensures tasks[u].startedAt >= tasks[w].startedAt {
      var i := KeptPlace(sorted, kept, u);
      var j := TaskIsLoaded(tasks, sorted, w);
      KeptIsTask(tasks, sorted, i);
      KeptIsLater(tasks, sorted, kept, i, j);
    }
    forall u | |tasks| <= CACHE_LIMIT && u in tasks ensures u in kept {
      var j := TaskIsLoaded(tasks, sorted, u);
      AllKept(tasks, sorted, kept, j);
    }
  }

  lemma KeptPlace(sorted: seq<(TaskId, Task)>, kept: set<TaskId>, u: TaskId) returns (i: nat)
    requires FirstOf(sorted, kept) && u in kept
    ensures i < |sorted| && i < CACHE_LIMIT && sorted[i].0 == u
  {
    i :| 0 <= i < |sorted| && i < CACHE_LIMIT && sorted[i].0 == u;
  }

  lemma AllKept(tasks: map<TaskId, Task>, sorted: seq<(TaskId, Task)>, kept: set<TaskId>, j: nat)
    requires AllLoaded(tasks, sorted) && FirstOf(sorted, kept) && |tasks| <= CACHE_LIMIT && j < |sorted|
    ensures sorted[j].0 in kept
  {
  }

  lemma SameElements<T>(s: seq<T>, t: seq<T>)
    requires multiset(s) == multiset(t)
    ensures forall x :: x in s <==> x in t
  {
    assert forall x :: x in s <==> x in multiset(s);
    assert forall x :: x in t <==> x in multiset(t);
  }

  // Two runs: a publisher that is told of an error although its record is committed, and one
  // that is told that a version exists although only a directory does.

  /** An empty upload. */
  function Sample(hash: seq<byte> -> string, key: Key, artifact: string): Upload {
    Upload(Record(key, hash([]), 0, artifact, 0), [], 0)
  }

  /** The server is up, at time 0, and nothing was published. */
  ghost predicate Fresh(hash: seq<byte> -> string, backend: Backend, s: State) {
    && Inv(hash, s) && Reaches(hash, Init(backend), s) && s.backend == backend && s.now == 0 && s.mem.server == Up
    && s.log.uploads == map[] && s.log.owner == map[] && s.disk.records == map[]
    && s.disk.artifacts == map[]
  }

  lemma FirstStart(hash: seq<byte> -> string, backend: Backend) returns (s: State)
    requires backend == LOCAL || backend == S3
    ensures Fresh(hash, backend, s)
  {
    var s0 := Init(backend);
    InitInv(hash, backend);
    var s1 := s0.(mem := s0.mem.(server := Loading));
    LoadStep(hash, s0, [], s1);
    var s2 := s1.(mem := s1.mem.(server := Settling));
    EndStep(hash, s0, s1, s2);
    s := s2.(mem := s2.mem.(server := Up));
    assert DoServe(s2, {}).value.mem.cache == map[];
    ServeStep(hash, s0, s2, {}, s);
  }

  /** How far a run of samples has come. */
  ghost predicate Sampled(hash: seq<byte> -> string, start: State, s: State) {
    && Inv(hash, s) && Reaches(hash, start, s) && s.backend == start.backend && s.now == 0 && s.mem.server == Up
  }

  lemma AcceptSample(hash: seq<byte> -> string, start: State, s: State, t: TaskId, key: Key, artifact: string)
    returns (s': State)
    requires Sampled(hash, start, s) && t !in s.log.uploads && artifact !in s.log.owner && ValidKey(key)
    ensures Sampled(hash, start, s') && s'.disk == s.disk && Get(s'.mem.workers, t) == Some(Accepted)
    ensures s'.log.uploads == s.log.uploads[t := Sample(hash, key, artifact)]
    ensures s'.log.owner == s.log.owner[artifact := t] && s'.log.winner == s.log.winner
  {
    hide Inv, Run, ValidKey;
    s' := DoAccept(hash, s, t, Sample(hash, key, artifact)).value;
    AcceptStep(hash, s, t, Sample(hash, key, artifact), s');
    ReachesOn(hash, start, s, s');
  }

  lemma SampleStep(hash: seq<byte> -> string, start: State, s: State, t: TaskId, step: Step, c: Change)
    returns (s': State)
    requires Sampled(hash, start, s) && t in s.log.uploads
    requires ActsFor(step, t) && !step.Accept? && ChangeOf(s, t, step) == Some(c)
    ensures Sampled(hash, start, s') && s' == Act(s, t, c)
  {
    hide Inv, ViewOf, ChangeOf, Run;
    s' := Act(s, t, c);
    Taken(hash, start, s, t, step, c);
  }

  /** A failed publication may have committed its record. */
  lemma ErrorMayBeCommitted(hash: seq<byte> -> string)
    ensures exists s, t :: Reachable(hash, S3, s) && Get(s.log.outcomes, t) == Some(Error) && Won(s, t)
  {
    hide Inv, ViewOf, ChangeOf, Run, Structured, ValidKey;
    var start := Init(S3);
    var s := FirstStart(hash, S3);
    assert ValidKey(Key("a", "b", "1.0.0")) by {
      SampleKeys();
    }
    s := AcceptSample(hash, start, s, 0, Key("a", "b", "1.0.0"), "c.tar.gz");
    PutRunningChange(s, 0, true, true);
    s := SampleStep(hash, start, s, 0, PutRunning(0, true, true),
      To(Some(Begun)).(task := Some(RunningTask(s.log.uploads[0]))));
    StoreChange(s, 0, true, true);
    s := SampleStep(hash, start, s, 0, StoreObject(0, true, true), To(Some(Prepared)).(file := Fill([])));
    CommitChange(s, 0);
    OnlyLocalDirs(hash, s);
    s := SampleStep(hash, start, s, 0, Commit(0), To(Some(Committed)).(commits := true));
    AnswerChange(s, 0);
    s := SampleStep(hash, start, s, 0, LoseReply(0), Return(Error).(unlists := true));
    assert Reachable(hash, S3, s) && Won(s, 0);
  }

  /** The archive check accepts all keys of the samples. */
  lemma SampleKeys()
    ensures Acceptable(Key("a", "b", "1.0.0")) && Acceptable(HOST) && Acceptable(GUEST)
    ensures ValidKey(Key("a", "b", "1.0.0")) && ValidKey(HOST) && ValidKey(GUEST)
  {
    hide ValidVersion, ValidKey;
    MajorVersion('1');
    MajorVersion('2');
    assert "1.0.0" == ['1'] + ".0.0" && "2.0.0" == ['2'] + ".0.0";
    AcceptedKeyIsValid(Key("a", "b", "1.0.0"));
    AcceptedKeyIsValid(HOST);
    AcceptedKeyIsValid(GUEST);
  }

  predicate Acceptable(k: Key) {
    ValidName(k.namespace) && ValidName(k.name) && ValidVersion(k.version)
  }

  /** `1.0.0` and its like are versions. */
  lemma MajorVersion(major: char)
    requires IsDigit(major)
    ensures ValidVersion([major] + ".0.0")
  {
    var v, fields := [major] + ".0.0", [[major], "0", "0"];
    assert '+' !in v && '-' !in v;
    assert Cut(v, '+') == (v, None) && Cut(v, '-') == (v, None);
    assert Join(fields[2..], '.') == "0";
    assert Join(fields[1..], '.') == "0" + "." + Join(fields[1..][1..], '.') && fields[1..][1..] == fields[2..];
    assert Join(fields, '.') == v;
    SplitJoined(fields, '.');
    assert [major][..0] == "" && "0"[..0] == "";
    assert Value([major]) <= 9 && Value("0") == 0;
  }

  /** Two keys: the record file of the second belongs where the first has its directory. */
  const HOST := Key("a", "1.0.0.json", "2.0.0")

  const GUEST := Key("a", ".", "1.0.0")

  lemma SamplePlaces()
    ensures RecordPath(HOST) != RecordPath(GUEST)
    ensures RecordPath(GUEST) in FirstDirs(HOST, |DirsMade(HOST)|)
              && RecordDir(GUEST) in FirstDirs(HOST, |DirsMade(HOST)|)
  {
    hide Resolve, RecordPath;
    PathShape(HOST);
    PathShape(GUEST);
    PathInDir(HOST);
    PathInDir(GUEST);
    assert Names(HOST) == ["a", "1.0.0.json"] && Names(GUEST) == ["a"];
    assert GUEST.version + ".json" == "1.0.0.json";
    assert RecordPath(GUEST) == ["records", "a", "1.0.0.json"];
    assert RecordDir(HOST) == ["records", "a", "1.0.0.json"] && RecordDir(GUEST) == ["records", "a"];
    assert DirsMade(HOST)[2] == RecordPath(GUEST) && DirsMade(HOST)[1] == RecordDir(GUEST);
    assert |RecordPath(HOST)| == 4;
  }

  lemma LocateSample(hash: seq<byte> -> string, s: State, t: TaskId) returns (s': State)
    requires Sampled(hash, Init(LOCAL), s) && t in s.log.uploads && Get(s.mem.workers, t) == Some(Begun)
    requires s.disk.records == map[]
    requires var k := s.log.uploads[t].record.key; RecordDir(k) in s.disk.dirs || k.name != "."
    ensures Sampled(hash, Init(LOCAL), s') && s'.log == s.log && Get(s'.mem.workers, t) == Some(Located)
    ensures var k := s.log.uploads[t].record.key;
            s'.disk == s.disk.(dirs := s.disk.dirs + FirstDirs(k, |DirsMade(k)|))
  {
    hide Inv, ViewOf, ChangeOf, Run, RecordPath, RecordDir, DirsMade, FirstDirs;
    var made := |DirsMade(s.log.uploads[t].record.key)|;
    MakeDirectoriesChange(s, t, made, Made);
    s' := SampleStep(hash, Init(LOCAL), s, t, MakeDirectories(t, made, Made), To(Some(Located)).(made := made));
  }

  /** The first upload makes its directories. */
  lemma HostBegins(hash: seq<byte> -> string) returns (s: State)
    ensures Sampled(hash, Init(LOCAL), s) && s.disk.records == map[] && s.disk.artifacts == map[]
    ensures RecordPath(GUEST) in s.disk.dirs && RecordDir(GUEST) in s.disk.dirs
    ensures s.log.uploads == map[0 := Sample(hash, HOST, "h")] && s.log.owner == map["h" := 0]
  {
    hide Inv, ViewOf, ChangeOf, Run, RecordPath, RecordDir, DirsMade, ValidKey, Act, FirstDirs;
    s := FirstStart(hash, LOCAL);
    assert ValidKey(HOST) by {
      SampleKeys();
    }
    SamplePlaces();
    s := AcceptSample(hash, Init(LOCAL), s, 0, HOST, "h");
    s := BeginSample(hash, s, 0);
    s := LocateSample(hash, s, 0);
  }

  /** The second one begins. */
  lemma GuestBegins(hash: seq<byte> -> string) returns (s: State)
    ensures Sampled(hash, Init(LOCAL), s) && s.disk.records == map[] && s.disk.artifacts == map[]
    ensures RecordPath(GUEST) in s.disk.dirs && RecordDir(GUEST) in s.disk.dirs
    ensures s.log.uploads == map[0 := Sample(hash, HOST, "h"), 1 := Sample(hash, GUEST, "g")]
    ensures Get(s.mem.workers, 1) == Some(Begun)
  {
    hide Inv, ViewOf, ChangeOf, Run, RecordPath, RecordDir, DirsMade, ValidKey, Act;
    s := HostBegins(hash);
    assert ValidKey(GUEST) by {
      SampleKeys();
    }
    s := AcceptSample(hash, Init(LOCAL), s, 1, GUEST, "g");
    s := BeginSample(hash, s, 1);
  }

  lemma BeginSample(hash: seq<byte> -> string, s: State, t: TaskId) returns (s': State)
    requires Sampled(hash, Init(LOCAL), s) && t in s.log.uploads && Get(s.mem.workers, t) == Some(Accepted)
    ensures Sampled(hash, Init(LOCAL), s') && s'.log == s.log && Get(s'.mem.workers, t) == Some(Begun)
    ensures s'.disk == s.disk.(tasks := s'.disk.tasks)
  {
    hide Inv, ViewOf, ChangeOf, Run, RecordPath, DirsMade;
    PutRunningChange(s, t, true, true);
    NoDirs(s.log.uploads[t].record.key);
    var c := To(Some(Begun)).(task := Some(RunningTask(s.log.uploads[t])));
    s' := SampleStep(hash, Init(LOCAL), s, t, PutRunning(t, true, true), c);
  }

  /** A step that commits nothing and makes no directory. */
  lemma NextSample(hash: seq<byte> -> string, s: State, step: Step, c: Change) returns (s': State)
    requires Sampled(hash, Init(LOCAL), s) && 1 in s.log.uploads && c.made == 0 && !c.commits
    requires ActsFor(step, 1) && !step.Accept? && ChangeOf(s, 1, step) == Some(c)
    ensures Sampled(hash, Init(LOCAL), s') && s'.log.uploads == s.log.uploads
    ensures s'.disk.dirs == s.disk.dirs && s'.disk.records == s.disk.records && Get(s'.mem.workers, 1) == c.phase
    ensures c.answer.Some? ==> Get(s'.log.outcomes, 1) == c.answer
    ensures Written(s', 1) ==
            match c.file case Keep => Written(s, 1) case Fill(bytes) => Some(bytes) case Delete => None
  {
    hide Inv, ViewOf, ChangeOf, Run, RecordPath, DirsMade;
    NoDirs(s.log.uploads[1].record.key);
    s' := SampleStep(hash, Init(LOCAL), s, 1, step, c);
  }

  lemma NothingWritten(s: State, t: TaskId)
    requires s.disk.artifacts == map[] && t in s.log.uploads
    ensures Written(s, t).None? && Name(s, t) !in s.disk.artifacts
  {
  }

  /** The second upload is ready to commit. */
  lemma GuestPrepares(hash: seq<byte> -> string) returns (s: State)
    ensures Sampled(hash, Init(LOCAL), s) && s.disk.records == map[] && RecordPath(GUEST) in s.disk.dirs
    ensures s.log.uploads == map[0 := Sample(hash, HOST, "h"), 1 := Sample(hash, GUEST, "g")]
    ensures Get(s.mem.workers, 1) == Some(Prepared)
  {
    hide Inv, ViewOf, ChangeOf, Run, RecordPath, RecordDir, DirsMade, FirstDirs, Act, Written;
    s := GuestBegins(hash);
    s := LocateSample(hash, s, 1);
    NothingWritten(s, 1);
    CreateChange(s, 1);
    s := NextSample(hash, s, Create(1), To(Some(Copying)).(file := Fill([])));
    CheckSizeChange(s, 1, true);
    s := NextSample(hash, s, CheckSize(1, true), To(Some(Copied)));
    PrepareChange(s, 1);
    s := NextSample(hash, s, Prepare(1), To(Some(Prepared)));
  }

  /** It is refused. */
  lemma GuestIsRefused(hash: seq<byte> -> string) returns (s: State)
    ensures Reachable(hash, LOCAL, s) && s.backend == LOCAL && s.disk.records == map[]
    ensures s.log.uploads == map[0 := Sample(hash, HOST, "h"), 1 := Sample(hash, GUEST, "g")]
    ensures Get(s.log.outcomes, 1) == Some(AlreadyExists)
  {
    hide Inv, ViewOf, ChangeOf, Run, RecordPath, Act, Written;
    s := GuestPrepares(hash);
    assert PlaceAt(s, 1) == RecordPath(GUEST);
    CommitChange(s, 1);
    s := NextSample(hash, s, Commit(1), To(Some(Rejected)));
    RemoveChange(s, 1, Rejected, true);
    s := NextSample(hash, s, RemoveArtifact(1, true), Return(AlreadyExists).(file := Delete));
  }

  /**
   On local disk a publisher may be told that its version exists although nothing at all was
   published and nobody else publishes that version or its twin.
   */
  lemma DirectoryMayRefuse(hash: seq<byte> -> string)
    ensures exists s, t :: Reachable(hash, LOCAL, s) && Get(s.log.outcomes, t) == Some(AlreadyExists)
                           && s.disk.records == map[] && t in s.log.uploads
                           && (forall u :: u in s.log.uploads ==> Acceptable(s.log.uploads[u].record.key))
                           && forall u :: Races(s, PlaceAt(s, t), u) ==> u == t
  {
    hide Acceptable, RecordPath, Reachable;
    SampleKeys();
    SamplePlaces();
    var s := GuestIsRefused(hash);
    assert Races(s, PlaceAt(s, 1), 1);
  }
}
