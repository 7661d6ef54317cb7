/**
 `session_from_headers`, `refresh_oidc_session`, `remember_session_if_current` and `apply_reload`
 as they run: methods that change the shared state in the order of the source, while logins,
 reloads and other requests may act before each of their steps. Every method is proved to be a
 run of the session machine.
 */
module SessionGate {
  import opened Wrappers
  import opened Sessions
  import opened SessionsSafety

  // Runs.

  ghost predicate Reaches(s: State, s': State) {
    exists steps :: Run(s, steps) == Some(s')
  }

  lemma ReachesItself(s: State)
    ensures Reaches(s, s)
  {
    assert Run(s, []) == Some(s);
  }

  lemma {:induction false} RunAppend(s: State, steps: seq<Step>, s1: State, more: seq<Step>, s2: State)
    requires Run(s, steps) == Some(s1) && Run(s1, more) == Some(s2)
    ensures Run(s, steps + more) == Some(s2)
  {
    if more == [] {
      assert steps + more == steps;
    } else {
      var n := |more| - 1;
      RunAppend(s, steps, s1, more[..n], Run(s1, more[..n]).value);
      assert (steps + more)[..|steps + more| - 1] == steps + more[..n];
    }
  }

  lemma ReachesOn(s: State, s1: State, s2: State)
    requires Reaches(s, s1) && Reaches(s1, s2)
    ensures Reaches(s, s2)
  {
    var steps :| Run(s, steps) == Some(s1);
    var more :| Run(s1, more) == Some(s2);
    RunAppend(s, steps, s1, more, s2);
  }

  /** Time passes and configurations are added. */
  predicate Later(s: State, s': State) {
    s.now <= s'.now && s.auth.configs <= s'.auth.configs && s.auth.generation <= s'.auth.generation
  }

  lemma StepIsLater(s: State, step: Step, s': State)
    requires Apply(s, step) == Some(s')
    ensures Later(s, s')
  {
    hide Apply, DoAct;
    if OfLogins(step) {
      LoginStep(s, step, s');
    } else if step.SwapConfig? || step.BumpGeneration? || step.ClearSessions? {
      ReloadStep(s, step, s');
    } else if step.Tick? || step.Logout? || step.StartRequest? {
      OtherStep(s, step, s');
    } else {
      IsAct(s, step, s');
      ActIsLater(s, step.q, step, s');
    }
  }

  lemma ActIsLater(s: State, q: nat, step: Step, s': State)
    requires DoAct(s, q, step) == Some(s')
    ensures Later(s, s')
  {
    hide ChangeOf;
  }

  lemma {:induction false} RunIsLater(s: State, steps: seq<Step>, s': State)
    requires Run(s, steps) == Some(s')
    ensures Later(s, s')
  {
    if steps != [] {
      var n := |steps| - 1;
      var before := Run(s, steps[..n]).value;
      RunIsLater(s, steps[..n], before);
      StepIsLater(before, steps[n], s');
    }
  }

  /** One of the activities that share the state. */
  datatype Actor = OfRequest(q: nat) | OfLogin(l: nat) | OfReload

  /** A step of this actor, once it is under way. */
  predicate ActsFor(step: Step, actor: Actor) {
    match step
    case Tick(_) => false
    case Logout(_) => false
    case SwapConfig(_) => false
    case BumpGeneration => actor.OfReload?
    case ClearSessions => actor.OfReload?
    case BeginLogin(l, _) => actor == OfLogin(l)
    case ReadLoginConfig(l) => actor == OfLogin(l)
    case CheckLogin(l, _, _, _) => actor == OfLogin(l)
    case RememberSession(l, _, _) => actor == OfLogin(l)
    case AbandonLogin(l) => actor == OfLogin(l)
    case _ => actor == OfRequest(step.q)
  }

  /** What others leave as it is: the actor's own place, and for a reload all that the gate protects. */
  predicate Untouched(actor: Actor, s: State, s': State) {
    match actor
    case OfRequest(q) => (q in s'.requests <==> q in s.requests)
      && (q in s.requests ==> s'.requests[q] == s.requests[q])
    case OfLogin(l) => (l in s'.logins <==> l in s.logins) && (l in s.logins ==> s'.logins[l] == s.logins[l])
    case OfReload => !s.auth.reload.Idle? ==> s'.auth == s.auth
  }

  lemma ForeignStep(s: State, actor: Actor, step: Step, s': State)
    requires Apply(s, step) == Some(s') && !ActsFor(step, actor)
    ensures Untouched(actor, s, s')
  {
    hide Apply, DoAct;
    if OfLogins(step) {
      LoginStep(s, step, s');
    } else if step.SwapConfig? || step.BumpGeneration? || step.ClearSessions? {
      ReloadStep(s, step, s');
    } else if step.Tick? || step.Logout? || step.StartRequest? {
      OtherStep(s, step, s');
    } else {
      IsAct(s, step, s');
      ForeignAct(s, actor, step.q, step, s');
    }
  }

  predicate OfLogins(step: Step) {
    step.BeginLogin? || step.ReadLoginConfig? || step.CheckLogin? || step.AbandonLogin? || step.RememberSession?
  }

  lemma LoginStep(s: State, step: Step, s': State)
    requires Apply(s, step) == Some(s') && OfLogins(step)
    ensures s'.auth == s.auth && s'.requests == s.requests && s'.now == s.now
    ensures forall l :: l != step.l ==>
              (l in s'.logins <==> l in s.logins) && (l in s.logins ==> s'.logins[l] == s.logins[l])
  {
    hide DoAct, DoSwapConfig, DoBumpGeneration, DoClearSessions, DoStartRequest, Without, LoginSession;
  }

  lemma ReloadStep(s: State, step: Step, s': State)
    requires Apply(s, step) == Some(s') && (step.SwapConfig? || step.BumpGeneration? || step.ClearSessions?)
    ensures s'.requests == s.requests && s'.logins == s.logins && (step.SwapConfig? ==> s.auth.reload.Idle?)
    ensures Later(s, s')
  {
    hide DoAct, DoStartRequest, DoRememberSession, DoCheckLogin, DoBeginLogin, DoReadLoginConfig, Without;
  }

  lemma OtherStep(s: State, step: Step, s': State)
    requires Apply(s, step) == Some(s') && (step.Tick? || step.Logout? || step.StartRequest?)
    ensures s'.auth == s.auth && s'.logins == s.logins && s.now <= s'.now
    ensures forall q :: !(step.StartRequest? && step.q == q) ==>
              (q in s'.requests <==> q in s.requests) && (q in s.requests ==> s'.requests[q] == s.requests[q])
  {
    hide DoAct, DoSwapConfig, DoBumpGeneration, DoClearSessions, DoRememberSession, DoCheckLogin, DoBeginLogin,
      DoReadLoginConfig, Without;
  }

  lemma ForeignAct(s: State, actor: Actor, q: nat, step: Step, s': State)
    requires DoAct(s, q, step) == Some(s') && actor != OfRequest(q)
    ensures Untouched(actor, s, s')
  {
    hide ChangeOf;
  }

  lemma {:induction false} ForeignRun(s: State, actor: Actor, steps: seq<Step>, s': State)
    requires Inv(s) && Run(s, steps) == Some(s') && forall step :: step in steps ==> !ActsFor(step, actor)
    ensures Inv(s') && Reaches(s, s') && Untouched(actor, s, s')
  {
    hide Inv, Apply;
    if steps != [] {
      var n := |steps| - 1;
      var before := Run(s, steps[..n]).value;
      ForeignRun(s, actor, steps[..n], before);
      StepInv(before, steps[n], s');
      ForeignStep(before, actor, steps[n], s');
    }
  }

  /** A step of the request, taken in a state that was reached before. */
  lemma Taken(start: State, s: State, q: nat, step: Step, c: Change, s': State)
    requires Inv(s) && Reaches(start, s) && q in s.requests && s.requests[q].id in s.table
    requires ActsFor(step, OfRequest(q)) && !step.StartRequest?
    requires ChangeOf(s.now, s.auth, s.table[s.requests[q].id], s.requests[q].phase, q, step) == Some(c)
    requires s' == s.(table := s'.table, requests := s'.requests)
    requires s'.table == if c.entry == s.table[s.requests[q].id] then s.table else s.table[s.requests[q].id := c.entry]
    requires s'.requests == if c.next.Go? then s.requests[q := s.requests[q].(phase := c.next.phase)]
              else s.requests - {q}
    ensures Inv(s') && Reaches(start, s')
  {
    hide Inv, ChangeOf;
    assert s.table[s.requests[q].id := s.table[s.requests[q].id]] == s.table;
    ActInv(s, q, step, s');
    assert [step][..0] == [];
    assert Run(s, [step]) == Some(s');
    ReachesOn(start, s, s');
  }

  /** The change of a step that writes, or that answers depend on. */
  lemma Dispatch(s: State, q: nat, step: Step)
    requires q in s.requests && s.requests[q].id in s.table
    ensures var now, auth, e, phase := s.now, s.auth, s.table[s.requests[q].id], s.requests[q].phase;
            ChangeOf(now, auth, e, phase, q, step) ==
            match step
            case Receive(_, response) => DoReceive(e, phase, response)
            case SaveToken(_) => DoSaveToken(auth, e, phase)
            case ReadUserInfo(_, user) => DoReadUserInfo(e, phase, user)
            case WriteRights(_) => DoWriteRights(now, auth, e, phase)
            case Release(_) => DoRelease(e, phase)
            case _ => ChangeOf(now, auth, e, phase, q, step)
  {
  }

  lemma Saves(auth: Auth, e: Entry, session: Session, read: nat, copy: Config, rotated: Option<Held>)
    requires auth.reload.Idle?
    ensures var e' := if e.session.Some? && e.session.value.refresh.Some?
                      then e.(session := Some(e.session.value.(refresh := rotated))) else e;
            DoSaveToken(auth, e, Answered(session, read, copy, rotated)) ==
            Some(if auth.generation == read then Change(e', Go(Saved(session, read, copy)))
              else Change(e, Go(Revoking)))
  {
  }

  lemma StepTaken(start: State, s: State, step: Step, s': State)
    requires Inv(s) && Reaches(start, s) && Apply(s, step) == Some(s')
    ensures Inv(s') && Reaches(start, s')
  {
    hide Inv, Apply;
    StepInv(s, step, s');
    assert [step][..0] == [];
    assert Run(s, [step]) == Some(s');
    ReachesOn(start, s, s');
  }

  // The three writes of a reload.

  lemma Swaps(start: State, s: State, next: Config, s': State)
    requires Inv(s) && Reaches(start, s) && s.auth.reload.Idle? && next.interval > 0
              && next.fixed == s.auth.config.fixed
    requires s' == s.(auth := Auth(next, s.auth.generation, Swapped(s.auth.config), s.auth.configs + [next]))
    ensures Inv(s') && Reaches(start, s')
  {
    hide Inv, Reaches, Run;
    StepTaken(start, s, SwapConfig(next), s');
  }

  lemma Bumps(start: State, s: State, s': State)
    requires Inv(s) && Reaches(start, s) && s.auth.reload.Swapped?
    requires s' == s.(auth := s.auth.(generation := s.auth.generation + 1, reload := Bumped(s.auth.reload.before)))
    ensures Inv(s') && Reaches(start, s')
  {
    hide Inv, Reaches, Run;
    StepTaken(start, s, BumpGeneration, s');
  }

  lemma Clears(start: State, s: State, s': State)
    requires Inv(s) && Reaches(start, s) && s.auth.reload.Bumped?
    requires s' == s.(auth := s.auth.(reload := Idle), table := Without(s.table, s.table.Keys))
    ensures Inv(s') && Reaches(start, s')
  {
    hide Inv, Reaches, Run, Without;
    StepTaken(start, s, ClearSessions, s');
  }

  lemma Remembered(start: State, s: State, l: nat, id: Id, evicted: set<Id>, s': State)
    requires Inv(s) && Reaches(start, s) && DoRememberSession(s, l, id, evicted) == Some(s')
    ensures Inv(s') && Reaches(start, s')
  {
    hide Inv, DoRememberSession;
    StepTaken(start, s, RememberSession(l, id, evicted), s');
  }

  lemma Started(start: State, s: State, q: nat, id: Id, s': State)
    requires Inv(s) && Reaches(start, s) && DoStartRequest(s, q, id) == Some(s')
    ensures Inv(s') && Reaches(start, s')
  {
    hide Inv, DoStartRequest;
    StartInv(s, q, id, s');
    assert [StartRequest(q, id)][..0] == [];
    assert Run(s, [StartRequest(q, id)]) == Some(s');
    ReachesOn(start, s, s');
  }

  lemma StaysGranted(s: State, s': State, r: Request, session: Session)
    requires FreshlyGranted(s, r, session) && s' == s.(requests := s'.requests)
    ensures FreshlyGranted(s', r, session)
  {
  }

  /** What holds at some instant of a request holds at some instant of a longer time. */
  lemma GrantedEarlier(s: State, r: Request, wider: Request, session: Session)
    requires FreshlyGranted(s, r, session) && wider.id == r.id && wider.since <= r.since && wider.from <= r.from
    ensures FreshlyGranted(s, wider, session)
  {
    if session.oidc {
      var time, interval :| r.since <= time <= s.now && YoungAt(s.auth, r.from, session.checkedAt, time, interval);
      var k :| r.from <= k + 1 && 0 <= k < |s.auth.configs| && s.auth.configs[k].interval == interval;
      assert InForce(s.auth, wider.from, interval);
      assert YoungAt(s.auth, wider.from, session.checkedAt, time, interval);
    }
  }

  /** How many sessions the table holds. */
  const SESSION_LIMIT := 4096

  /** It is the same request, in another phase. */
  predicate OnlyMoved(before: Request, after: Request) {
    after == before.(phase := after.phase)
  }

  lemma {:induction false} ReachesLater(s: State, s': State)
    requires Inv(s) && Reaches(s, s')
    ensures Later(s, s') && Continues(s, s') && NoneReturns(s, s')
  {
    hide Inv, Later, Continues, NoneReturns;
    var steps :| Run(s, steps) == Some(s');
    hide Run;
    RunIsLater(s, steps, s');
    SessionsContinue(s, steps, s');
    RemovedForever(s, steps, s');
  }

  /** An interval in force since the call has passed since this check of the session. */
  ghost predicate Overdue(s: State, since: nat, checkedAt: nat) {
    exists interval :: InForce(s.auth, since, interval) && checkedAt + interval <= s.now
  }

  /** The session `id` as it was at `s`, if it was there, is overdue at `s'`. */
  ghost predicate DueSince(s: State, s': State, id: Id) {
    SessionOf(s, id).Some? ==>
      SessionOf(s, id).value.oidc && Overdue(s', |s.auth.configs|, SessionOf(s, id).value.checkedAt)
  }

  lemma FoundDue(s: State, s1: State, s': State, r: Request, session: Session, interval: nat)
    requires Continues(s, s1) && NoneReturns(s, s1) && Later(s1, s') && SessionOf(s1, r.id) == Some(session)
    requires r.from >= |s.auth.configs| && InForce(s'.auth, r.from, interval) && session.oidc
    requires session.checkedAt + interval <= s'.now
    ensures DueSince(s, s', r.id)
  {
    var k :| r.from <= k + 1 && 0 <= k < |s'.auth.configs| && s'.auth.configs[k].interval == interval;
    assert InForce(s'.auth, |s.auth.configs|, interval);
  }

  lemma StillDue(s: State, s1: State, s2: State, id: Id)
    requires DueSince(s, s1, id) && Later(s1, s2)
    ensures DueSince(s, s2, id)
  {
    if SessionOf(s, id).Some? {
      var interval :| InForce(s1.auth, |s.auth.configs|, interval)
        && SessionOf(s, id).value.checkedAt + interval <= s1.now;
      var k :| |s.auth.configs| <= k + 1 && 0 <= k < |s1.auth.configs| && s1.auth.configs[k].interval == interval;
      assert s2.auth.configs[k].interval == interval;
      assert InForce(s2.auth, |s.auth.configs|, interval);
    }
  }

  /**
   How a refresh meets the provider: whether the client secret and the endpoints can be read, and
   the answers to the refresh token and to the request for the user.
   */
  datatype Provider = Provider(reachable: bool, response: Response, user: UserInfo)

  /** Something could not be read or reached, or an answer is of no use. */
  predicate Fails(p: Provider) {
    !p.reachable || p.response.Unusable? || p.response.NoAccess? || (p.response.Tokens? && p.user.NoUser?)
  }

  /** The provider refuses the token, or names another user. */
  predicate Refuses(p: Provider, session: Session) {
    && p.reachable
    && (p.response.InvalidGrant?
        || (p.response.Tokens? && p.user.User? && p.user.subject != Some(session.subject)))
  }

  /** No session of this id is in the table, or it has expired. */
  predicate Lacks(s: State, id: Id) {
    SessionOf(s, id).None? || Expired(SessionOf(s, id).value, s.now)
  }

  lemma TimedInForce(s: State, q: nat)
    requires Inv(s) && q in s.requests && s.requests[q].id in s.table && s.requests[q].phase.Timed?
    ensures InForce(s.auth, s.requests[q].from, s.requests[q].phase.interval)
    ensures s.requests[q].phase.session.checkedAt <= s.now
  {
    assert RequestOk(s.now, s.auth, q, s.requests[q], s.table[s.requests[q].id]);
  }

  /** Only a request for an OIDC session waits for the refresh lock or holds it. */
  lemma LockedIsOidc(s: State, q: nat)
    requires Inv(s) && q in s.requests && s.requests[q].id in s.table
    requires Locked(s.requests[q].phase) || s.requests[q].phase.Waiting?
    ensures SessionOf(s, s.requests[q].id).Some? ==> SessionOf(s, s.requests[q].id).value.oidc
  {
    assert RequestOk(s.now, s.auth, q, s.requests[q], s.table[s.requests[q].id]);
  }

  lemma LookedDue(start: State, looked: State, s: State, s': State, r: Request, session: Session, interval: nat)
    requires Inv(start) && Reaches(start, looked) && SessionOf(looked, r.id) == Some(session) && Later(s, s')
    requires Inv(looked) && Reaches(looked, s')
    requires r.from >= |start.auth.configs| && InForce(s.auth, r.from, interval)
    requires session.oidc && SaturatingSub(s'.now, session.checkedAt) >= interval && session.checkedAt <= s.now
    ensures DueSince(start, s', r.id)
  {
    hide Inv, Reaches, NoneReturns, Continues, SessionOf, DueSince;
    ReachesLater(start, looked);
    ReachesLater(looked, s');
    var k :| r.from <= k + 1 && 0 <= k < |s.auth.configs| && s.auth.configs[k].interval == interval;
    assert s'.auth.configs[k].interval == interval;
    FoundDue(start, looked, s', r, session, interval);
  }

  /** How a refresh ends: `Blocked` means that it still waits for the gate. */
  datatype Verdict = Fine | Revoked | Unreachable | Blocked

  /**
   A request for an overdue OIDC session cannot go on: the provider fails, or a reload holds the
   gate, or another request the refresh lock.
   */
  ghost predicate Stuck(start: State, s: State, q: nat, id: Id, provider: Provider, reply: Option<Reply>) {
    && (reply.None? || (reply == Some(Unavailable) && Fails(provider) && q !in s.requests))
    && (reply.None? ==> !s.auth.reload.Idle? || (id in s.table && s.table[id].lock.Some?))
    && (SessionOf(s, id).Some? ==> SessionOf(s, id).value.oidc) && DueSince(start, s, id)
  }

  /**
   What a reply means: a session that is granted is in the table, unexpired, current and, if it is
   an OIDC session, was young at some time since the call; without one there is none in the end.
   */
  ghost predicate Justified(start: State, s: State, q: nat, id: Id, provider: Provider, reply: Option<Reply>) {
    if reply.None? || reply.value.Unavailable? then Stuck(start, s, q, id, provider, reply)
    else
      && q !in s.requests
      && match reply.value
         case NoSession => SessionOf(s, id).None?
         case Granted(session) =>
           SessionOf(s, id) == Some(session)
           && FreshlyGranted(s, Request(id, start.now, |start.auth.configs|, Final), session)
  }

  lemma Denied(start: State, s: State, q: nat, id: Id, provider: Provider)
    requires q !in s.requests && SessionOf(s, id).None?
    ensures Justified(start, s, q, id, provider, Some(NoSession))
  {
  }

  lemma StuckIsJustified(start: State, s: State, q: nat, id: Id, provider: Provider, reply: Option<Reply>)
    requires Stuck(start, s, q, id, provider, reply)
    ensures Justified(start, s, q, id, provider, reply)
  {
  }

  lemma LookIsJustified(start: State, s: State, q: nat, id: Id, provider: Provider, reply: Option<Reply>)
    requires q !in s.requests && reply.Some? && !reply.value.Unavailable?
    requires reply.value.NoSession? ==> SessionOf(s, id).None?
    requires reply.value.Granted? ==>
               && SessionOf(s, id) == Some(reply.value.session)
               && FreshlyGranted(s, Request(id, start.now, |start.auth.configs|, Final), reply.value.session)
    ensures Justified(start, s, q, id, provider, reply)
  {
    hide FreshlyGranted;
  }

  /** So a local session that is still there was granted, and any one if the provider does not fail. */
  lemma PresentIsGranted(start: State, s: State, q: nat, id: Id, provider: Provider, reply: Option<Reply>)
    requires Justified(start, s, q, id, provider, reply) && SessionOf(s, id).Some?
    ensures !SessionOf(s, id).value.oidc || (reply.Some? && !Fails(provider)) ==>
              reply == Some(Granted(SessionOf(s, id).value))
  {
    hide FreshlyGranted, DueSince;
  }

  /** Where the request is when its refresh has ended so. */
  predicate Leaves(verdict: Verdict, phase: Phase) {
    match verdict
    case Fine => phase == Leaving(false)
    case Revoked => phase == Revoking
    case Unreachable => phase == Leaving(true)
    case Blocked => Locked(phase)
  }

  lemma GenerationGrows(s: State, s': State)
    requires Inv(s) && Reaches(s, s')
    ensures s.auth.generation <= s'.auth.generation
  {
    hide Inv, Reaches;
    ReachesLater(s, s');
  }

  /** The shared state. `requests`, `logins` and the history in `table` say what others do and did. */
  class AppState {
    var now: nat
    var config: Config
    var generation: nat
    var reload: Reload
    var configs: seq<Config>
    var table: map<Id, Entry>
    var logins: map<nat, Login>
    var requests: map<nat, Request>

    function Contents(): State
      reads this
    {
      State(now, Auth(config, generation, reload, configs), table, logins, requests)
    }

    ghost predicate Valid()
      reads this
    {
      Inv(Contents())
    }

    /** The request `q` has come to this phase. */
    ghost predicate In(q: nat, phase: Phase)
      reads this
    {
      Valid() && q in requests && requests[q].id in table && requests[q].phase == phase
    }

    /** The request goes on with this phase. */
    method Move(q: nat, phase: Phase)
      requires q in requests
      modifies `requests
      ensures requests == old(requests)[q := old(requests[q]).(phase := phase)]
    {
      requests := requests[q := requests[q].(phase := phase)];
    }

    /** Others act: any number of their steps. */
    method Others(actor: Actor)
      requires Valid()
      modifies this
      ensures Valid() && Reaches(old(Contents()), Contents()) && Untouched(actor, old(Contents()), Contents())
      ensures Later(old(Contents()), Contents())
      ensures actor.OfRequest? && actor.q in requests ==> requests[actor.q].id in table
    {
      hide Run, Apply, Reaches;
      var steps: seq<Step> := *;
      var next := Run(Contents(), steps);
      if next.Some? && forall step :: step in steps ==> !ActsFor(step, actor) {
        ghost var s := Contents();
        ForeignRun(s, actor, steps, next.value);
        RunIsLater(s, steps, next.value);
        Become(next.value);
      } else {
        ReachesItself(Contents());
      }
    }

    method Become(s: State)
      modifies this
      ensures Contents() == s
    {
      now, table, logins, requests := s.now, s.table, s.logins, s.requests;
      config, generation, reload, configs := s.auth.config, s.auth.generation, s.auth.reload, s.auth.configs;
    }

    /** The first copy of the session. */
    method Lookup(q: nat, id: Id) returns (session: Option<Session>)
      requires Valid() && q !in requests
      modifies this
      ensures Valid() && Reaches(old(Contents()), Contents())
      ensures session.Some? ==> In(q, Looked(session.value)) && requests[q].id == id
      ensures session.Some? ==> requests[q].since >= old(now) && requests[q].from >= |old(configs)|
      ensures session.None? ==> q !in requests
      ensures SessionOf(Contents(), id) == session
    {
      hide Inv, Reaches, Run, Apply;
      Others(OfRequest(q));
      ghost var s := Contents();
      session := if id in table then table[id].session else None;
      if session.Some? {
        requests := requests[q := Request(id, now, |configs|, Looked(session.value))];
      }
      Started(old(Contents()), s, q, id, Contents());
    }

    method CheckExpiry(q: nat, session: Session) returns (expired: bool)
      requires In(q, Looked(session))
      modifies this
      ensures In(q, if expired then Expiring else Unexpired(session))
      ensures Reaches(old(Contents()), Contents()) && OnlyMoved(old(requests[q]), requests[q])
    {
      hide Inv, Reaches, Run, Apply;
      Others(OfRequest(q));
      ghost var s := Contents();
      expired := Expired(session, now);
      Move(q, if expired then Expiring else Unexpired(session));
      Taken(old(Contents()), s, q, Step.CheckExpiry(q),
            Change(table[requests[q].id], Go(requests[q].phase)), Contents());
    }

    method RemoveExpired(q: nat)
      requires In(q, Expiring)
      modifies this
      ensures Valid() && Reaches(old(Contents()), Contents()) && q !in requests
      ensures SessionOf(Contents(), old(requests[q].id)).None?
    {
      hide Inv, Reaches, Run, Apply;
      Others(OfRequest(q));
      ghost var s := Contents();
      var id := requests[q].id;
      table := table[id := table[id].(session := None)];
      requests := requests - {q};
      Taken(old(Contents()), s, q, Step.RemoveExpired(q), Change(table[id], Answer(NoSession)), Contents());
    }

    method ReadInterval(q: nat, session: Session) returns (interval: nat)
      requires In(q, Unexpired(session))
      modifies this
      ensures In(q, Timed(session, interval)) && session.checkedAt <= now
      ensures InForce(Contents().auth, requests[q].from, interval)
      ensures Reaches(old(Contents()), Contents()) && OnlyMoved(old(requests[q]), requests[q])
    {
      hide Inv, Reaches, Run, Apply;
      Others(OfRequest(q));
      ghost var s := Contents();
      interval := config.interval;
      Move(q, Timed(session, interval));
      Taken(old(Contents()), s, q, Step.ReadInterval(q),
            Change(table[requests[q].id], Go(requests[q].phase)), Contents());
      TimedInForce(Contents(), q);
    }

    /** Whether an OIDC session is due for a check. */
    method CheckAge(q: nat, session: Session, interval: nat) returns (due: bool)
      requires In(q, Timed(session, interval))
      modifies this
      ensures In(q, if due then Waiting else Final) && Later(old(Contents()), Contents())
      ensures due <==> session.oidc && SaturatingSub(now, session.checkedAt) >= interval
      ensures Reaches(old(Contents()), Contents()) && OnlyMoved(old(requests[q]), requests[q])
    {
      hide Inv, Reaches, Run, Apply;
      Others(OfRequest(q));
      ghost var s := Contents();
      due := session.oidc && SaturatingSub(now, session.checkedAt) >= interval;
      Move(q, if due then Waiting else Final);
      Taken(old(Contents()), s, q, Step.CheckAge(q), Change(table[requests[q].id], Go(requests[q].phase)), Contents());
    }

    /** `refresh_lock`: if another request holds it, this one waits. */
    method TakeLock(q: nat) returns (taken: bool)
      requires In(q, Waiting)
      modifies this
      ensures In(q, if taken then Holding else Waiting)
      ensures !taken ==> table[requests[q].id].lock.Some?
      ensures Reaches(old(Contents()), Contents()) && OnlyMoved(old(requests[q]), requests[q])
    {
      hide Inv, Reaches, Run, Apply;
      Others(OfRequest(q));
      ghost var s := Contents();
      var id := requests[q].id;
      taken := table[id].lock.None?;
      if taken {
        table := table[id := table[id].(lock := Some(q))];
        Move(q, Holding);
        Taken(old(Contents()), s, q, Step.TakeLock(q), Change(table[id], Go(Holding)), Contents());
      }
    }

    /** The session may be gone by now. */
    method Reread(q: nat) returns (session: Option<Session>)
      requires In(q, Holding)
      modifies this
      ensures In(q, if session.Some? then Current(session.value) else Leaving(false))
      ensures Reaches(old(Contents()), Contents()) && OnlyMoved(old(requests[q]), requests[q])
    {
      hide Inv, Reaches, Run, Apply;
      Others(OfRequest(q));
      ghost var s := Contents();
      session := table[requests[q].id].session;
      Move(q, if session.Some? then Current(session.value) else Leaving(false));
      Taken(old(Contents()), s, q, Step.Reread(q), Change(table[requests[q].id], Go(requests[q].phase)), Contents());
    }

    /** Or expired; then it is removed. */
    method CheckExpiryAgain(q: nat, session: Session) returns (expired: bool)
      requires In(q, Current(session))
      modifies this
      ensures In(q, if expired then Revoking else CurrentUnexpired(session))
      ensures Reaches(old(Contents()), Contents()) && OnlyMoved(old(requests[q]), requests[q])
    {
      hide Inv, Reaches, Run, Apply;
      Others(OfRequest(q));
      ghost var s := Contents();
      expired := Expired(session, now);
      Move(q, if expired then Revoking else CurrentUnexpired(session));
      Taken(old(Contents()), s, q, Step.CheckExpiryAgain(q),
            Change(table[requests[q].id], Go(requests[q].phase)), Contents());
    }

    method ReadIntervalAgain(q: nat, session: Session) returns (interval: nat)
      requires In(q, CurrentUnexpired(session))
      modifies this
      ensures In(q, CurrentTimed(session, interval))
      ensures Reaches(old(Contents()), Contents()) && OnlyMoved(old(requests[q]), requests[q])
    {
      hide Inv, Reaches, Run, Apply;
      Others(OfRequest(q));
      ghost var s := Contents();
      interval := config.interval;
      Move(q, CurrentTimed(session, interval));
      Taken(old(Contents()), s, q, Step.ReadIntervalAgain(q),
            Change(table[requests[q].id], Go(requests[q].phase)), Contents());
    }

    /** Or checked by another request. */
    method CheckAgeAgain(q: nat, session: Session, interval: nat) returns (due: bool)
      requires In(q, CurrentTimed(session, interval))
      modifies this
      ensures In(q, if due then Due(session) else Leaving(false))
      ensures Reaches(old(Contents()), Contents()) && OnlyMoved(old(requests[q]), requests[q])
    {
      hide Inv, Reaches, Run, Apply;
      Others(OfRequest(q));
      ghost var s := Contents();
      due := SaturatingSub(now, session.checkedAt) >= interval;
      Move(q, if due then Due(session) else Leaving(false));
      Taken(old(Contents()), s, q, Step.CheckAgeAgain(q),
            Change(table[requests[q].id], Go(requests[q].phase)), Contents());
    }

    /** The generation is read, when no reload holds the gate. */
    method ReadGeneration(q: nat, session: Session) returns (read: Option<nat>)
      requires In(q, Due(session)) && session.refresh.Some?
      modifies this
      ensures In(q, if read.Some? then Began(session, read.value) else Due(session))
      ensures if read.Some? then read.value == generation else !reload.Idle?
      ensures Reaches(old(Contents()), Contents()) && OnlyMoved(old(requests[q]), requests[q])
    {
      hide Inv, Reaches, Run, Apply;
      Others(OfRequest(q));
      ghost var s := Contents();
      read := if reload.Idle? then Some(generation) else None;
      if read.Some? {
        Move(q, Began(session, generation));
        Taken(old(Contents()), s, q, Step.BeginRefresh(q),
              Change(table[requests[q].id], Go(requests[q].phase)), Contents());
      }
    }

    /** Without a refresh token the session cannot be checked. */
    method GiveUp(q: nat, session: Session)
      requires In(q, Due(session)) && session.refresh.None?
      modifies this
      ensures In(q, Revoking) && Reaches(old(Contents()), Contents()) && OnlyMoved(old(requests[q]), requests[q])
    {
      hide Inv, Reaches, Run, Apply;
      Others(OfRequest(q));
      ghost var s := Contents();
      Move(q, Revoking);
      Taken(old(Contents()), s, q, Step.BeginRefresh(q), Change(table[requests[q].id], Go(Revoking)), Contents());
    }

    /** After the generation, the configuration. */
    method ReadConfig(q: nat, session: Session, read: nat) returns (copy: Config)
      requires In(q, Began(session, read))
      modifies this
      ensures In(q, Configured(session, read, copy))
      ensures Reaches(old(Contents()), Contents()) && OnlyMoved(old(requests[q]), requests[q])
    {
      hide Inv, Reaches, Run, Apply;
      Others(OfRequest(q));
      ghost var s := Contents();
      copy := config;
      Move(q, Configured(session, read, copy));
      Taken(old(Contents()), s, q, Step.ReadConfig(q),
            Change(table[requests[q].id], Go(requests[q].phase)), Contents());
    }

    /** Something cannot be read or reached. */
    method Fail(q: nat, ghost phase: Phase)
      requires In(q, phase) && (phase.Due? || phase.Configured? || phase.Presented? || phase.Saved?)
      modifies this
      ensures In(q, Leaving(true)) && Reaches(old(Contents()), Contents()) && OnlyMoved(old(requests[q]), requests[q])
    {
      hide Inv, Reaches, Run, Apply;
      Others(OfRequest(q));
      ghost var s := Contents();
      Move(q, Leaving(true));
      Taken(old(Contents()), s, q, Step.Fail(q), Change(table[requests[q].id], Go(requests[q].phase)), Contents());
    }

    /** The refresh token goes to the provider. */
    method Present(q: nat, session: Session, read: nat, copy: Config)
      requires In(q, Configured(session, read, copy))
      modifies this
      ensures In(q, Presented(session, read, copy))
      ensures Reaches(old(Contents()), Contents()) && OnlyMoved(old(requests[q]), requests[q])
    {
      hide Inv, Reaches, Run, Apply;
      Others(OfRequest(q));
      ghost var s := Contents();
      Move(q, Presented(session, read, copy));
      Taken(old(Contents()), s, q, Step.Present(q), Change(table[requests[q].id], Go(requests[q].phase)), Contents());
    }

    /** What the response changes: the receipts, and how the refresh goes on. */
    method Open(e0: Entry, session: Session, read: nat, copy: Config, response: Response)
      returns (e: Entry, phase: Phase, rotated: Option<Held>)
      ensures DoReceive(e0, Presented(session, read, copy), response) == Some(Change(e, Go(phase)))
      ensures phase == if response.InvalidGrant? then Revoking
              else if !response.Tokens? then Leaving(true)
              else if rotated.Some? then Answered(session, read, copy, rotated) else Saved(session, read, copy)
    {
      e, rotated, phase := e0, None, Leaving(true);
      match response {
        case InvalidGrant => phase := Revoking;
        case Unusable =>
        case NoAccess(refresh) =>
          if refresh.Some? {
            e := e.(receipts := e.receipts + [Receipt(refresh.value, false)]);
          }
        case Tokens(refresh) =>
          phase := Saved(session, read, copy);
          if refresh.Some? {
            rotated := Some(Held(refresh.value, |e.receipts|));
            e := e.(receipts := e.receipts + [Receipt(refresh.value, true)]);
            phase := Answered(session, read, copy, rotated);
          }
      }
    }

    /** The provider answers. A new refresh token counts only if an access token is there too. */
    method Receive(q: nat, session: Session, read: nat, copy: Config, response: Response)
      returns (rotated: Option<Held>)
      requires In(q, Presented(session, read, copy))
      modifies this
      ensures q in requests && In(q, requests[q].phase)
      ensures Reaches(old(Contents()), Contents()) && OnlyMoved(old(requests[q]), requests[q])
      ensures requests[q].phase == if response.InvalidGrant? then Revoking
                else if !response.Tokens? then Leaving(true)
                else if rotated.Some? then Answered(session, read, copy, rotated) else Saved(session, read, copy)
    {
      hide Inv, Reaches, Run, Apply, ChangeOf, DoReceive, DoSaveToken, DoReadUserInfo, DoWriteRights, DoRelease;
      Others(OfRequest(q));
      ghost var s := Contents();
      var id := requests[q].id;
      var e, phase;
      e, phase, rotated := Open(table[id], session, read, copy, response);
      assert table[id := table[id]] == table;
      table := table[id := e];
      Move(q, phase);
      Dispatch(s, q, Step.Receive(q, response));
      Taken(old(Contents()), s, q, Step.Receive(q, response), Change(table[id], Go(requests[q].phase)), Contents());
    }

    /** Under the gate: the new token is saved if the configuration is still the same. */
    method SaveToken(q: nat, session: Session, read: nat, copy: Config, rotated: Option<Held>)
      returns (verdict: Verdict)
      requires In(q, Answered(session, read, copy, rotated))
      modifies this
      ensures q in requests && In(q, requests[q].phase)
      ensures Reaches(old(Contents()), Contents()) && OnlyMoved(old(requests[q]), requests[q])
                && (verdict.Fine? || verdict.Revoked? || verdict.Blocked?)
      ensures requests[q].phase == match verdict case Fine => Saved(session, read, copy) case Revoked => Revoking
                case _ => Answered(session, read, copy, rotated)
      ensures verdict.Revoked? ==> generation != read
      ensures verdict.Blocked? ==> !reload.Idle?
      ensures verdict.Fine? ==> generation == read && (SessionOf(Contents(), requests[q].id).Some? ==>
                var refresh := SessionOf(Contents(), requests[q].id).value.refresh; refresh.None? || refresh == rotated)
    {
      hide Inv, Reaches, Run, Apply, ChangeOf, DoReceive, DoSaveToken, DoReadUserInfo, DoWriteRights, DoRelease;
      Others(OfRequest(q));
      ghost var s := Contents();
      var id := requests[q].id;
      if !reload.Idle? {
        return Blocked;
      }
      if generation != read {
        verdict := Revoked;
        Move(q, Revoking);
      } else {
        verdict := Fine;
        if table[id].session.Some? && table[id].session.value.refresh.Some? {
          table := table[id := table[id].(session := Some(table[id].session.value.(refresh := rotated)))];
        }
        Move(q, Saved(session, read, copy));
      }
      Dispatch(s, q, Step.SaveToken(q));
      Saves(s.auth, s.table[id], session, read, copy, rotated);
      Taken(old(Contents()), s, q, Step.SaveToken(q), Change(table[id], Go(requests[q].phase)), Contents());
    }

    /** The provider tells who the user is. */
    method ReadUserInfo(q: nat, session: Session, read: nat, copy: Config, user: UserInfo)
      requires In(q, Saved(session, read, copy))
      modifies this
      ensures q in requests && In(q, requests[q].phase)
      ensures Reaches(old(Contents()), Contents()) && OnlyMoved(old(requests[q]), requests[q])
      ensures requests[q].phase == if user.NoUser? then Leaving(true)
                else if user.subject != Some(session.subject) then Revoking
                else Informed(session, read, copy, user.groups)
    {
      hide Inv, Reaches, Run, Apply, ChangeOf;
      Others(OfRequest(q));
      ghost var s := Contents();
      Move(q, if user.NoUser? then Leaving(true)
            else if user.subject != Some(session.subject) then Revoking
            else Informed(session, read, copy, user.groups));
      Dispatch(s, q, Step.ReadUserInfo(q, user));
      Taken(old(Contents()), s, q, Step.ReadUserInfo(q, user),
            Change(table[requests[q].id], Go(requests[q].phase)), Contents());
    }

    /** Under the gate: the rights are written if the configuration is still the same. */
    method WriteRights(q: nat, session: Session, read: nat, copy: Config, groups: set<string>)
      returns (verdict: Verdict)
      requires In(q, Informed(session, read, copy, groups))
      modifies this
      ensures q in requests && In(q, requests[q].phase)
      ensures Reaches(old(Contents()), Contents()) && OnlyMoved(old(requests[q]), requests[q])
                && (verdict.Fine? || verdict.Revoked? || verdict.Blocked?)
      ensures requests[q].phase == match verdict case Fine => Leaving(false) case Revoked => Revoking
                case _ => Informed(session, read, copy, groups)
      ensures verdict.Fine? ==>
                && generation == read && table[requests[q].id].session.Some?
                && table[requests[q].id].groups == groups
      ensures verdict.Fine? ==> RightsOk(config, table[requests[q].id].session.value, groups)
      ensures verdict.Revoked? ==> generation != read || Lacks(Contents(), requests[q].id)
      ensures verdict.Blocked? ==> !reload.Idle?
    {
      hide Inv, Reaches, Run, Apply, ChangeOf, DoReceive, DoSaveToken, DoReadUserInfo, DoRelease;
      Others(OfRequest(q));
      ghost var s := Contents();
      var id := requests[q].id;
      if !reload.Idle? {
        return Blocked;
      }
      if generation != read || table[id].session.None? || Expired(table[id].session.value, now) {
        verdict := Revoked;
        Move(q, Revoking);
      } else {
        verdict := Fine;
        var written := table[id].session.value.(rights := OidcPermissions(copy, groups), checkedAt := now);
        table := table[id := table[id].(session := Some(written), groups := groups)];
        Move(q, Leaving(false));
      }
      Dispatch(s, q, Step.WriteRights(q));
      Taken(old(Contents()), s, q, Step.WriteRights(q), Change(table[id], Go(requests[q].phase)), Contents());
      if verdict.Fine? {
        SessionRights(Contents(), id);
      }
    }

    /** The session is removed. */
    method Revoke(q: nat)
      requires In(q, Revoking)
      modifies this
      ensures In(q, Leaving(false)) && Reaches(old(Contents()), Contents()) && OnlyMoved(old(requests[q]), requests[q])
    {
      hide Inv, Reaches, Run, Apply;
      Others(OfRequest(q));
      ghost var s := Contents();
      var id := requests[q].id;
      table := table[id := table[id].(session := None)];
      Move(q, Leaving(false));
      Taken(old(Contents()), s, q, Step.Revoke(q), Change(table[id], Go(Leaving(false))), Contents());
    }

    /** The refresh lock is released; a failed refresh ends the request. */
    method Release(q: nat, failed: bool)
      requires In(q, Leaving(failed))
      modifies this
      ensures Valid() && Reaches(old(Contents()), Contents())
      ensures !failed ==> In(q, Final) && OnlyMoved(old(requests[q]), requests[q])
      ensures failed ==> q !in requests && (var id := old(requests[q].id);
                SessionOf(Contents(), id).Some? ==> SessionOf(Contents(), id).value.oidc)
    {
      hide Inv, Reaches, Run, Apply, ChangeOf;
      Others(OfRequest(q));
      ghost var s := Contents();
      var id := requests[q].id;
      table := table[id := table[id].(lock := None)];
      ghost var c := Change(table[id], if failed then Answer(Unavailable) else Go(Final));
      if failed {
        requests := requests - {q};
      } else {
        Move(q, Final);
      }
      Dispatch(s, q, Step.Release(q));
      LockedIsOidc(s, q);
      Taken(old(Contents()), s, q, Step.Release(q), c, Contents());
    }

    /** The last look at the table. Without a reply the session is expired and to be removed. */
    method LookAgain(q: nat) returns (reply: Option<Reply>)
      requires In(q, Final)
      modifies this
      ensures Valid() && Reaches(old(Contents()), Contents())
      ensures reply.Some? ==> q !in requests && !reply.value.Unavailable?
      ensures reply.None? ==> In(q, Expiring) && OnlyMoved(old(requests[q]), requests[q])
      ensures reply == Some(NoSession) ==> SessionOf(Contents(), old(requests[q].id)).None?
      ensures reply.Some? && reply.value.Granted? ==>
                SessionOf(Contents(), old(requests[q].id)) == Some(reply.value.session)
      ensures reply.Some? && reply.value.Granted? ==> FreshlyGranted(Contents(), old(requests[q]), reply.value.session)
    {
      hide Inv, Reaches, Run, Apply;
      Others(OfRequest(q));
      ghost var s := Contents();
      var session := table[requests[q].id].session;
      ghost var c := Change(table[requests[q].id], Go(Expiring));
      if session.Some? && Expired(session.value, now) {
        reply := None;
        Move(q, Expiring);
      } else {
        reply := Some(if session.None? then NoSession else Granted(session.value));
        c := Change(table[requests[q].id], Answer(reply.value));
        requests := requests - {q};
        if session.Some? {
          FinishGrants(s, q, c);
          StaysGranted(s, Contents(), old(requests[q]), session.value);
        }
      }
      Taken(old(Contents()), s, q, Step.Finish(q), c, Contents());
    }

    /** `refresh_oidc_session`, up to what is to be done about its result. */
    method RefreshOidcSession(q: nat, session: Session, provider: Provider) returns (verdict: Verdict)
      requires In(q, Due(session))
      modifies this
      ensures q in requests && In(q, requests[q].phase)
      ensures Reaches(old(Contents()), Contents()) && OnlyMoved(old(requests[q]), requests[q])
      ensures Leaves(verdict, requests[q].phase)
      ensures verdict.Fine? ==>
                && !Fails(provider) && !Refuses(provider, session) && table[requests[q].id].session.Some?
                && table[requests[q].id].groups == provider.user.groups
                && RightsOk(config, table[requests[q].id].session.value, provider.user.groups)
      ensures verdict.Unreachable? ==> Fails(provider)
      ensures verdict.Revoked? ==>
                || session.refresh.None? || Refuses(provider, session) || generation != old(generation)
                || Lacks(Contents(), requests[q].id)
      ensures verdict.Blocked? ==> !reload.Idle?
    {
      hide Inv, Reaches, Run, Apply, Fails, Refuses, Lacks, RightsOk, Later, Continues, NoneReturns;
      ghost var start := Contents();
      if session.refresh.None? {
        GiveUp(q, session);
        return Revoked;
      }
      var read := ReadGeneration(q, session);
      if read.None? {
        return Blocked;
      }
      ghost var s := Contents();
      GenerationGrows(start, s);
      var copy := ReadConfig(q, session, read.value);
      ReachesOn(start, s, Contents());
      GenerationGrows(s, Contents());
      s := Contents();
      verdict := AskProvider(q, session, read.value, copy, provider);
      ReachesOn(start, s, Contents());
      GenerationGrows(s, Contents());
    }

    /** The refresh token for the response. */
    method Exchange(q: nat, session: Session, read: nat, copy: Config, response: Response)
      returns (rotated: Option<Held>)
      requires In(q, Configured(session, read, copy))
      modifies this
      ensures q in requests && In(q, requests[q].phase)
      ensures Reaches(old(Contents()), Contents()) && OnlyMoved(old(requests[q]), requests[q])
      ensures requests[q].phase == if response.InvalidGrant? then Revoking
                else if !response.Tokens? then Leaving(true)
                else if rotated.Some? then Answered(session, read, copy, rotated) else Saved(session, read, copy)
    {
      hide Inv, Reaches, Run, Apply;
      ghost var start := Contents();
      Present(q, session, read, copy);
      ghost var s := Contents();
      rotated := Receive(q, session, read, copy, response);
      ReachesOn(start, s, Contents());
    }

    /** The exchange with the provider, under the configuration that was read. */
    method AskProvider(q: nat, session: Session, read: nat, copy: Config, provider: Provider)
      returns (verdict: Verdict)
      requires In(q, Configured(session, read, copy))
      modifies this
      ensures q in requests && In(q, requests[q].phase)
      ensures Reaches(old(Contents()), Contents()) && OnlyMoved(old(requests[q]), requests[q])
      ensures Leaves(verdict, requests[q].phase)
      ensures verdict.Fine? ==>
                && !Fails(provider) && !Refuses(provider, session) && table[requests[q].id].session.Some?
                && table[requests[q].id].groups == provider.user.groups
                && RightsOk(config, table[requests[q].id].session.value, provider.user.groups)
      ensures verdict.Unreachable? ==> Fails(provider)
      ensures verdict.Revoked? ==>
                Refuses(provider, session) || generation != read || Lacks(Contents(), requests[q].id)
      ensures verdict.Blocked? ==> !reload.Idle?
    {
      hide Inv, Reaches, Run, Apply, Lacks, RightsOk;
      ghost var start := Contents();
      if !provider.reachable {
        Fail(q, requests[q].phase);
        return Unreachable;
      }
      var rotated := Exchange(q, session, read, copy, provider.response);
      ghost var s := Contents();
      if !provider.response.Tokens? {
        return if provider.response.InvalidGrant? then Revoked else Unreachable;
      }
      verdict := KeepToken(q, session, read, copy, rotated, provider.user);
      ReachesOn(start, s, Contents());
    }

    /** A new refresh token is saved if there is one; then the user is asked for. */
    method KeepToken(q: nat, session: Session, read: nat, copy: Config, rotated: Option<Held>, user: UserInfo)
      returns (verdict: Verdict)
      requires In(q, if rotated.Some? then Answered(session, read, copy, rotated) else Saved(session, read, copy))
      modifies this
      ensures q in requests && In(q, requests[q].phase)
      ensures Reaches(old(Contents()), Contents()) && OnlyMoved(old(requests[q]), requests[q])
      ensures Leaves(verdict, requests[q].phase)
      ensures verdict.Fine? ==>
                && user.User? && user.subject == Some(session.subject) && table[requests[q].id].session.Some?
                && table[requests[q].id].groups == user.groups
                && RightsOk(config, table[requests[q].id].session.value, user.groups)
      ensures verdict.Unreachable? ==> user.NoUser?
      ensures verdict.Revoked? ==>
                || (user.User? && user.subject != Some(session.subject)) || generation != read
                || Lacks(Contents(), requests[q].id)
      ensures verdict.Blocked? ==> !reload.Idle?
    {
      hide Inv, Reaches, Run, Apply, Lacks, RightsOk;
      ghost var start := Contents();
      if rotated.Some? {
        verdict := SaveToken(q, session, read, copy, rotated);
        if !verdict.Fine? {
          return;
        }
      } else {
        ReachesItself(start);
      }
      ghost var s := Contents();
      verdict := FinishRefresh(q, session, read, copy, user);
      ReachesOn(start, s, Contents());
    }

    /** From the request for the user's groups to the rights. */
    method FinishRefresh(q: nat, session: Session, read: nat, copy: Config, user: UserInfo)
      returns (verdict: Verdict)
      requires In(q, Saved(session, read, copy))
      modifies this
      ensures q in requests && In(q, requests[q].phase)
      ensures Reaches(old(Contents()), Contents()) && OnlyMoved(old(requests[q]), requests[q])
      ensures Leaves(verdict, requests[q].phase)
      ensures verdict.Fine? ==>
                && user.User? && user.subject == Some(session.subject) && table[requests[q].id].session.Some?
                && table[requests[q].id].groups == user.groups
                && RightsOk(config, table[requests[q].id].session.value, user.groups)
      ensures verdict.Unreachable? ==> user.NoUser?
      ensures verdict.Revoked? ==>
                || (user.User? && user.subject != Some(session.subject)) || generation != read
                || Lacks(Contents(), requests[q].id)
      ensures verdict.Blocked? ==> !reload.Idle?
    {
      hide Inv, Reaches, Run, Apply, Lacks, RightsOk;
      ghost var start := Contents();
      ReadUserInfo(q, session, read, copy, user);
      if user.NoUser? {
        return Unreachable;
      }
      if user.subject != Some(session.subject) {
        return Revoked;
      }
      ghost var s := Contents();
      verdict := WriteRights(q, session, read, copy, user.groups);
      ReachesOn(start, s, Contents());
    }

    /** What runs under the refresh lock. `done` is false if the request still waits. */
    method RefreshUnderLock(q: nat, provider: Provider) returns (done: bool, failed: bool)
      requires In(q, Waiting)
      modifies this
      ensures Valid() && Reaches(old(Contents()), Contents())
      ensures done && !failed ==> In(q, Final) && OnlyMoved(old(requests[q]), requests[q])
      ensures done && failed ==> q !in requests && Fails(provider)
      ensures !done || failed ==> (var id := old(requests[q].id);
                SessionOf(Contents(), id).Some? ==> SessionOf(Contents(), id).value.oidc)
      ensures !done ==>
                && q in requests
                && (!reload.Idle? || (old(requests[q].id) in table && table[old(requests[q].id)].lock.Some?))
    {
      hide Inv, Reaches, Run, Apply;
      ghost var start := Contents();
      failed := false;
      done := TakeLock(q);
      if !done {
        LockedIsOidc(Contents(), q);
        return;
      }
      ghost var s := Contents();
      done, failed := UseLock(q, provider);
      ReachesOn(start, s, Contents());
      if !done {
        LockedIsOidc(Contents(), q);
        return;
      }
      s := Contents();
      Release(q, failed);
      ReachesOn(start, s, Contents());
    }

    /** What is done between taking the lock and releasing it. */
    method UseLock(q: nat, provider: Provider) returns (done: bool, failed: bool)
      requires In(q, Holding)
      modifies this
      ensures Valid() && Reaches(old(Contents()), Contents())
      ensures done ==> In(q, Leaving(failed)) && OnlyMoved(old(requests[q]), requests[q])
      ensures done && failed ==> Fails(provider)
      ensures !done ==>
                && !reload.Idle? && q in requests && requests[q].id == old(requests[q].id)
                && requests[q].id in table && Locked(requests[q].phase)
    {
      hide Inv, Reaches, Run, Apply;
      ghost var start := Contents();
      done, failed := true, false;
      var session := Reread(q);
      if session.None? {
        return;
      }
      ghost var s := Contents();
      var expired := CheckExpiryAgain(q, session.value);
      ReachesOn(start, s, Contents());
      s := Contents();
      if expired {
        Revoke(q);
        ReachesOn(start, s, Contents());
        return;
      }
      var interval := ReadIntervalAgain(q, session.value);
      ReachesOn(start, s, Contents());
      s := Contents();
      var due := CheckAgeAgain(q, session.value, interval);
      ReachesOn(start, s, Contents());
      if !due {
        return;
      }
      s := Contents();
      var verdict := RefreshOidcSession(q, session.value, provider);
      ReachesOn(start, s, Contents());
      s := Contents();
      if verdict.Revoked? {
        Revoke(q);
        ReachesOn(start, s, Contents());
      }
      done, failed := !verdict.Blocked?, verdict.Unreachable?;
    }

    /**
     `session_from_headers`, with any steps of others in between. A session that it returns is in
     the table with the present rights, is unexpired, and if it is an OIDC session it was young
     enough at some time since the call. It denies a session only if there is none in the end; it
     fails only if the provider does, and waits only while another refresh or a reload goes on.
     A local session that is still there is always granted.
     */
    method SessionFromHeaders(q: nat, id: Id, provider: Provider) returns (reply: Option<Reply>)
      requires Valid() && q !in requests
      modifies this
      ensures Valid() && Reaches(old(Contents()), Contents())
      ensures Justified(old(Contents()), Contents(), q, id, provider, reply)
      ensures SessionOf(Contents(), id).Some? && !SessionOf(Contents(), id).value.oidc ==>
                reply == Some(Granted(SessionOf(Contents(), id).value))
      ensures SessionOf(Contents(), id).Some? && reply.Some? && !Fails(provider) ==>
                reply == Some(Granted(SessionOf(Contents(), id).value))
    {
      hide Inv, Reaches, Run, Apply, Justified, SessionOf;
      var session := Lookup(q, id);
      if session.Some? {
        ghost var start := old(Contents());
        reply := Admit(q, session.value, provider, start);
      } else {
        reply := Some(NoSession);
        Denied(old(Contents()), Contents(), q, id, provider);
      }
      if SessionOf(Contents(), id).Some? {
        PresentIsGranted(old(Contents()), Contents(), q, id, provider, reply);
      }
    }

    /** The rest of it, once a session was found. */
    method Admit(q: nat, session: Session, provider: Provider, ghost start: State) returns (reply: Option<Reply>)
      requires In(q, Looked(session)) && Reaches(start, Contents()) && Inv(start)
      requires requests[q].since >= start.now && requests[q].from >= |start.auth.configs|
      requires SessionOf(Contents(), requests[q].id) == Some(session)
      modifies this
      ensures Valid() && Reaches(start, Contents())
      ensures Justified(start, Contents(), q, old(requests[q].id), provider, reply)
    {
      hide Inv, Reaches, Run, Apply, Justified, Stuck, FreshlyGranted, DueSince, Fails, SessionOf;
      ghost var s := Contents();
      var id := requests[q].id;
      var expired := CheckExpiry(q, session);
      ReachesOn(start, s, Contents());
      if expired {
        s := Contents();
        RemoveExpired(q);
        ReachesOn(start, s, Contents());
        Denied(start, Contents(), q, id, provider);
        return Some(NoSession);
      }
      var due := FindDue(q, session, start, s);
      if due {
        var valid;
        valid, reply := Revalidate(q, provider, start);
        if !valid {
          StuckIsJustified(start, Contents(), q, id, provider, reply);
          return;
        }
      }
      reply := LastLook(q, Request(id, start.now, |start.auth.configs|, Final), start);
      LookIsJustified(start, Contents(), q, id, provider, reply);
    }

    /** A session that is due is checked with the provider, unless another request did so just before. */
    method Revalidate(q: nat, provider: Provider, ghost start: State) returns (valid: bool, reply: Option<Reply>)
      requires In(q, Waiting) && Reaches(start, Contents()) && DueSince(start, Contents(), requests[q].id)
      modifies this
      ensures Valid() && Reaches(start, Contents())
      ensures valid ==> In(q, Final) && OnlyMoved(old(requests[q]), requests[q])
      ensures !valid ==> Stuck(start, Contents(), q, old(requests[q].id), provider, reply)
    {
      hide Inv, Reaches, Run, Apply, DueSince, Later, Continues, NoneReturns, Fails;
      ghost var s := Contents();
      var done, failed := RefreshUnderLock(q, provider);
      ReachesOn(start, s, Contents());
      ReachesLater(s, Contents());
      StillDue(start, s, Contents(), s.requests[q].id);
      valid, reply := done && !failed, if done then Some(Unavailable) else None;
    }

    /** The interval is read and the age of the session compared with it. `looked` is the first look. */
    method FindDue(q: nat, session: Session, ghost start: State, ghost looked: State) returns (due: bool)
      requires In(q, Unexpired(session)) && Reaches(start, Contents()) && Reaches(start, looked)
      requires Reaches(looked, Contents()) && Inv(start) && Inv(looked)
      requires SessionOf(looked, requests[q].id) == Some(session) && requests[q].from >= |start.auth.configs|
      modifies this
      ensures In(q, if due then Waiting else Final) && Reaches(start, Contents())
      ensures OnlyMoved(old(requests[q]), requests[q])
      ensures due ==> DueSince(start, Contents(), requests[q].id)
    {
      hide Inv, Reaches, Run, Apply, DueSince, Later, Continues, NoneReturns, InForce, SessionOf;
      ghost var s := Contents();
      var interval := ReadInterval(q, session);
      ReachesOn(start, s, Contents());
      ReachesOn(looked, s, Contents());
      s := Contents();
      due := CheckAge(q, session, interval);
      ReachesOn(start, s, Contents());
      ReachesOn(looked, s, Contents());
      if due {
        LookedDue(start, looked, s, Contents(), s.requests[q], session, interval);
      }
    }

    /** The last look, and the removal of a session that it finds expired. */
    method LastLook(q: nat, ghost wider: Request, ghost start: State) returns (reply: Option<Reply>)
      requires In(q, Final) && Reaches(start, Contents())
      requires wider.id == requests[q].id && wider.since <= requests[q].since && wider.from <= requests[q].from
      modifies this
      ensures Valid() && Reaches(start, Contents()) && reply.Some? && q !in requests && !reply.value.Unavailable?
      ensures reply.value.Granted? ==> FreshlyGranted(Contents(), wider, reply.value.session)
      ensures reply.value.NoSession? ==> SessionOf(Contents(), wider.id).None?
      ensures reply.value.Granted? ==> SessionOf(Contents(), wider.id) == Some(reply.value.session)
    {
      hide Inv, Reaches, Run, Apply, FreshlyGranted;
      ghost var s := Contents();
      reply := LookAgain(q);
      ReachesOn(start, s, Contents());
      if reply.None? {
        s := Contents();
        RemoveExpired(q);
        ReachesOn(start, s, Contents());
        reply := Some(NoSession);
      } else if reply.value.Granted? {
        GrantedEarlier(Contents(), s.requests[q], wider, reply.value.session);
      }
    }

    /**
     `apply_reload`. Without a result it still waits for the gate. If it is refused nothing has
     changed by it; otherwise the configuration is the active one and no session is left.
     */
    method ApplyReload(next: Config) returns (applied: Option<bool>)
      requires Valid() && next.interval > 0
      modifies this
      ensures Valid() && Reaches(old(Contents()), Contents())
      ensures applied.None? ==> !reload.Idle?
      ensures applied == Some(true) ==>
                && config == next && reload.Idle? && generation > old(generation)
                && forall id :: SessionOf(Contents(), id).None?
      ensures applied == Some(false) ==> next.fixed != config.fixed
    {
      hide Inv, Reaches, Run, Apply;
      Others(OfReload);
      if !reload.Idle? {
        return None;
      }
      if next.fixed != config.fixed {
        return Some(false);
      }
      ghost var s := Contents();
      reload := Swapped(config);
      config := next;
      configs := configs + [next];
      Swaps(old(Contents()), s, next, Contents());
      ghost var s1 := Contents();
      Others(OfReload);
      ReachesOn(old(Contents()), s1, Contents());
      ghost var s2 := Contents();
      generation := generation + 1;
      reload := Bumped(reload.before);
      Bumps(old(Contents()), s2, Contents());
      ghost var s3 := Contents();
      Others(OfReload);
      ReachesOn(old(Contents()), s3, Contents());
      ghost var s4 := Contents();
      table := Without(table, table.Keys);
      reload := Idle;
      Clears(old(Contents()), s4, Contents());
      applied := Some(true);
    }

    /** The sessions in the table. */
    function Live(): set<Id>
      reads this
    {
      set id | id in table && table[id].session.Some?
    }

    /** Those of them that have expired. */
    function Overdue(): set<Id>
      reads this
    {
      set id | id in Live() && Expired(table[id].session.value, now)
    }

    /** `remember_session` makes room: in a full table the expired sessions go, or else any one. */
    method MakeRoom() returns (evicted: set<Id>)
      ensures evicted <= Live() && (|Live()| < SESSION_LIMIT ==> evicted == {})
      ensures |Live()| >= SESSION_LIMIT ==> Overdue() <= evicted
      ensures |Live()| == SESSION_LIMIT && Overdue() != {} ==> evicted == Overdue()
      ensures |Live()| == SESSION_LIMIT && Overdue() == {} ==> |evicted| == 1
    {
      evicted := {};
      if |Live()| >= SESSION_LIMIT {
        evicted := set id | id in table && table[id].session.Some? && Expired(table[id].session.value, now);
      }
      if |Live() - evicted| >= SESSION_LIMIT {
        var any :| any in Live() - evicted;
        evicted := evicted + {any};
      }
    }

    /** `remember_session_if_current`. Without a result it still waits for the gate. */
    method RememberSessionIfCurrent(l: nat, id: Id) returns (remembered: Option<bool>)
      requires Valid() && l in logins && logins[l].phase.LoginReady?
      modifies this
      ensures Valid() && Reaches(old(Contents()), Contents())
      ensures remembered == Some(true) ==>
                && SessionOf(Contents(), id) == Some(old(logins[l].phase.session)) && reload.Idle?
                && generation == old(logins[l].generation)
                && RightsOk(config, old(logins[l].phase.session), table[id].groups)
      ensures remembered == Some(false) ==> generation != old(logins[l].generation) || id in table
      ensures remembered.None? ==> !reload.Idle?
    {
      hide Inv, Reaches, Run, Apply;
      Others(OfLogin(l));
      if !reload.Idle? {
        return None;
      }
      ghost var s := Contents();
      if id in table {
        return Some(false);
      }
      var login := logins[l];
      remembered := Some(generation == login.generation);
      ghost var evicted: set<Id> := {};
      if generation == login.generation {
        var phase := login.phase;
        var leaving := MakeRoom();
        evicted := leaving;
        table := Without(table, leaving);
        table := table[id := Entry(Some(phase.session), None, phase.receipts, phase.groups)];
      }
      logins := logins - {l};
      Remembered(old(Contents()), s, l, id, evicted, Contents());
      if remembered == Some(true) {
        SessionRights(Contents(), id);
      }
    }
  }
}
