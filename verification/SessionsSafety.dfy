/** What every step of the session machine keeps, and what that promises for every run. */
module SessionsSafety {
  import opened Wrappers
  import opened Sessions

  // The invariant.

  /** The configuration from which the sessions in the table got their rights. */
  function Basis(auth: Auth): Config {
    if auth.reload.Idle? then auth.config else auth.reload.before
  }

  predicate AuthOk(auth: Auth) {
    && auth.configs != [] && auth.config == auth.configs[|auth.configs| - 1]
    && forall k :: 0 <= k < |auth.configs| ==> auth.configs[k].interval > 0
  }

  predicate RightsOk(config: Config, session: Session, groups: set<string>) {
    session.rights == if session.oidc then OidcPermissions(config, groups) else LocalRights(config)
  }

  /** The token is the last one that was received together with an access token. */
  predicate Newest(receipts: seq<Receipt>, refresh: Option<Held>) {
    refresh.Some? ==>
      && refresh.value.index < |receipts| && receipts[refresh.value.index] == Receipt(refresh.value.token, true)
      && forall k :: refresh.value.index < k < |receipts| ==> !receipts[k].access
  }

  predicate KeepsNewest(e: Entry) {
    e.session.Some? ==> Newest(e.receipts, e.session.value.refresh)
  }

  predicate EntryOk(now: nat, auth: Auth, e: Entry) {
    e.session.Some? ==>
      && RightsOk(Basis(auth), e.session.value, e.groups) && e.session.value.checkedAt <= now
      && (e.lock.None? ==> KeepsNewest(e))
  }

  /** The generation was read when no reload was under way. */
  predicate GenerationOk(auth: Auth, generation: nat) {
    generation <= auth.generation && (auth.reload.Bumped? ==> generation < auth.generation)
  }

  /** The configuration was read after the generation. */
  predicate ConfigOk(auth: Auth, generation: nat, config: Config) {
    GenerationOk(auth, generation) && (auth.reload.Idle? && generation == auth.generation ==> config == auth.config)
  }

  predicate LoginOk(now: nat, auth: Auth, login: Login) {
    && GenerationOk(auth, login.generation)
    && (login.phase.LoginConfigured? ==> ConfigOk(auth, login.generation, login.phase.config))
    && (login.phase.LoginReady? ==>
          && ConfigOk(auth, login.generation, login.phase.config)
          && RightsOk(login.phase.config, login.phase.session, login.phase.groups)
          && login.phase.session.checkedAt <= now && Newest(login.phase.receipts, login.phase.session.refresh))
  }

  predicate Locked(phase: Phase) {
    && !phase.Looked? && !phase.Expiring? && !phase.Unexpired? && !phase.Timed?
    && !phase.Waiting? && !phase.Final?
  }

  /** An earlier copy of the session. */
  predicate Copied(e: Entry, session: Session, now: nat) {
    && session.checkedAt <= now
    && (e.session.Some? ==>
          && e.session.value.oidc == session.oidc && e.session.value.expiresAt == session.expiresAt
          && session.checkedAt <= e.session.value.checkedAt)
  }

  predicate Same(e: Entry, session: Session) {
    e.session.Some? ==> e.session.value == session
  }

  /** Some configuration with this interval was active at some time during the request. */
  predicate InForce(auth: Auth, since: nat, interval: nat) {
    exists k :: since <= k + 1 && 0 <= k < |auth.configs| && auth.configs[k].interval == interval
  }

  predicate YoungAt(auth: Auth, since: nat, checkedAt: nat, time: nat, interval: nat) {
    InForce(auth, since, interval) && checkedAt <= time < checkedAt + interval
  }

  /** At some instant of the request the check was younger than the interval then in force. */
  ghost predicate Young(now: nat, auth: Auth, r: Request, checkedAt: nat) {
    exists time, interval :: r.since <= time <= now && YoungAt(auth, r.from, checkedAt, time, interval)
  }

  ghost predicate Checked(now: nat, auth: Auth, r: Request, e: Entry) {
    e.session.Some? && e.session.value.oidc ==> Young(now, auth, r, e.session.value.checkedAt)
  }

  ghost predicate PhaseOk(now: nat, auth: Auth, r: Request, e: Entry) {
    match r.phase
    case Looked(session) => Copied(e, session, now)
    case Expiring => true
    case Unexpired(session) => Copied(e, session, now)
    case Timed(session, interval) => Copied(e, session, now) && InForce(auth, r.from, interval)
    case Waiting => true
    case Holding => KeepsNewest(e)
    case Current(session) => Same(e, session) && Newest(e.receipts, session.refresh)
    case CurrentUnexpired(session) => Same(e, session) && Newest(e.receipts, session.refresh)
    case CurrentTimed(session, interval) =>
      Same(e, session) && Newest(e.receipts, session.refresh) && InForce(auth, r.from, interval)
    case Due(session) => Same(e, session) && Newest(e.receipts, session.refresh)
    case Began(session, generation) =>
      Same(e, session) && Newest(e.receipts, session.refresh) && session.refresh.Some? && GenerationOk(auth, generation)
    case Configured(session, generation, config) =>
      Same(e, session) && Newest(e.receipts, session.refresh) && session.refresh.Some?
        && ConfigOk(auth, generation, config)
    case Presented(session, generation, config) =>
      Same(e, session) && Newest(e.receipts, session.refresh) && session.refresh.Some?
        && ConfigOk(auth, generation, config)
    case Answered(session, generation, config, rotated) =>
      && Same(e, session) && session.refresh.Some? && ConfigOk(auth, generation, config)
      && rotated.Some? && Newest(e.receipts, rotated)
    case Saved(session, generation, config) => KeepsNewest(e) && ConfigOk(auth, generation, config)
    case Informed(session, generation, config, groups) => KeepsNewest(e) && ConfigOk(auth, generation, config)
    case Revoking => true
    case Leaving(failed) => KeepsNewest(e) && (!failed ==> Checked(now, auth, r, e))
    case Final => Checked(now, auth, r, e)
  }

  ghost predicate RequestOk(now: nat, auth: Auth, q: nat, r: Request, e: Entry) {
    && r.since <= now && r.from <= |auth.configs|
    && (Locked(r.phase) <==> e.lock == Some(q))
    && (Locked(r.phase) || r.phase.Waiting? ==> e.session.Some? ==> e.session.value.oidc)
    && PhaseOk(now, auth, r, e)
  }

  predicate LocksOk(s: State) {
    forall id :: id in s.table && s.table[id].lock.Some? ==>
      s.table[id].lock.value in s.requests && s.requests[s.table[id].lock.value].id == id
  }

  ghost predicate Inv(s: State) {
    && AuthOk(s.auth)
    && (forall id :: id in s.table ==> EntryOk(s.now, s.auth, s.table[id]))
    && (forall q :: q in s.requests ==>
          s.requests[q].id in s.table && RequestOk(s.now, s.auth, q, s.requests[q], s.table[s.requests[q].id]))
    && LocksOk(s)
    && (forall l :: l in s.logins ==> LoginOk(s.now, s.auth, s.logins[l]))
  }

  // How the world may change around one entry, request or login.

  predicate Moves(auth: Auth, auth': Auth) {
    || auth' == auth
    || (auth.reload.Idle? && auth' == Auth(auth'.config, auth.generation, Swapped(auth.config),
      auth.configs + [auth'.config]))
    || (auth.reload.Swapped? && auth' == auth.(generation := auth.generation + 1, reload := Bumped(auth.reload.before)))
    || (auth.reload.Bumped? && auth' == auth.(reload := Idle))
  }

  /** What may happen to the entry of a request while others act. */
  predicate Beside(now: nat, q: nat, e: Entry, e': Entry) {
    && (e'.session.Some? ==>
          && e.session.Some?
          && e'.session.value.oidc == e.session.value.oidc && e'.session.value.expiresAt == e.session.value.expiresAt
          && e.session.value.checkedAt <= e'.session.value.checkedAt
          && (e'.session.value.checkedAt == e.session.value.checkedAt || e'.session.value.checkedAt == now))
    && (e.lock == Some(q) <==> e'.lock == Some(q))
    && (e.lock == Some(q) ==> e'.receipts == e.receipts && (e'.session == e.session || e'.session.None?))
  }

  lemma StaysInForce(auth: Auth, auth': Auth, since: nat, interval: nat)
    requires Moves(auth, auth') && InForce(auth, since, interval)
    ensures InForce(auth', since, interval)
  {
    var k :| since <= k + 1 && 0 <= k < |auth.configs| && auth.configs[k].interval == interval;
    assert auth'.configs[k] == auth.configs[k];
  }

  lemma JustChecked(now: nat, auth: Auth, r: Request)
    requires AuthOk(auth) && r.since <= now && r.from <= |auth.configs|
    ensures Young(now, auth, r, now)
  {
    var k := |auth.configs| - 1;
    assert InForce(auth, r.from, auth.configs[k].interval);
    assert YoungAt(auth, r.from, now, now, auth.configs[k].interval);
  }

  lemma StaysYoung(now: nat, auth: Auth, r: Request, checkedAt: nat, now': nat, auth': Auth)
    requires Young(now, auth, r, checkedAt) && now <= now' && Moves(auth, auth')
    ensures Young(now', auth', r, checkedAt)
  {
    var time, interval :| r.since <= time <= now && YoungAt(auth, r.from, checkedAt, time, interval);
    StaysInForce(auth, auth', r.from, interval);
    assert YoungAt(auth', r.from, checkedAt, time, interval);
  }

  lemma StaysChecked(now: nat, auth: Auth, q: nat, r: Request, e: Entry, now': nat, auth': Auth, e': Entry)
    requires Checked(now, auth, r, e) && now <= now' && Moves(auth, auth') && AuthOk(auth') && Beside(now', q, e, e')
    requires r.since <= now && r.from <= |auth.configs|
    ensures Checked(now', auth', r, e')
  {
    hide Young;
    if e'.session.Some? && e'.session.value.oidc {
      if e'.session.value.checkedAt == now' {
        JustChecked(now', auth', r);
      } else {
        StaysYoung(now, auth, r, e.session.value.checkedAt, now', auth');
      }
    }
  }

  lemma RequestMoves(now: nat, auth: Auth, q: nat, r: Request, e: Entry, now': nat, auth': Auth, e': Entry)
    requires RequestOk(now, auth, q, r, e)
    requires now <= now' && Moves(auth, auth') && AuthOk(auth') && Beside(now', q, e, e')
    ensures RequestOk(now', auth', q, r, e')
  {
    hide Checked, InForce;
    match r.phase
    case Timed(session, interval) => StaysInForce(auth, auth', r.from, interval);
    case CurrentTimed(session, interval) => StaysInForce(auth, auth', r.from, interval);
    case Leaving(failed) =>
      if !failed {
        StaysChecked(now, auth, q, r, e, now', auth', e');
      }
    case Final => StaysChecked(now, auth, q, r, e, now', auth', e');
    case _ =>
  }

  lemma LoginMoves(now: nat, auth: Auth, login: Login, now': nat, auth': Auth)
    requires LoginOk(now, auth, login) && now <= now' && Moves(auth, auth')
    ensures LoginOk(now', auth', login)
  {
  }

  /** The sessions stay, or all are removed when a reload ends. */
  lemma EntryMoves(now: nat, auth: Auth, e: Entry, now': nat, auth': Auth, e': Entry)
    requires EntryOk(now, auth, e) && now <= now' && Moves(auth, auth')
    requires e' == Removed(e) || (e' == e && (auth.reload.Bumped? ==> auth'.reload.Bumped?))
    ensures EntryOk(now', auth', e')
  {
  }

  // The steps of a request.

  predicate Looks(step: Step) {
    || step.CheckExpiry? || step.RemoveExpired? || step.ReadInterval? || step.CheckAge?
    || step.TakeLock? || step.Finish?
  }

  predicate Rereads(step: Step) {
    step.Reread? || step.CheckExpiryAgain? || step.ReadIntervalAgain? || step.CheckAgeAgain?
  }

  predicate Asks(step: Step) { step.BeginRefresh? || step.ReadConfig? || step.Present? || step.Receive? || step.Fail? }

  predicate Writes(step: Step) {
    step.SaveToken? || step.ReadUserInfo? || step.WriteRights? || step.Revoke? || step.Release?
  }

  /** A step of a request keeps what is known of its session and of itself. */
  ghost predicate Keeps(now: nat, auth: Auth, q: nat, r: Request, c: Change) {
    && EntryOk(now, auth, c.entry)
    && (c.next.Go? ==> RequestOk(now, auth, q, r.(phase := c.next.phase), c.entry))
    && (c.next.Answer? ==> c.entry.lock != Some(q))
  }

  lemma AgeIsYoung(now: nat, auth: Auth, r: Request, r': Request, checkedAt: nat, interval: nat)
    requires InForce(auth, r.from, interval) && r.since <= now && checkedAt <= now < checkedAt + interval
    requires r' == r.(phase := r'.phase)
    ensures Young(now, auth, r', checkedAt)
  {
    assert YoungAt(auth, r'.from, checkedAt, now, interval);
  }

  lemma LookKeeps(now: nat, auth: Auth, q: nat, r: Request, e: Entry, step: Step, c: Change)
    requires AuthOk(auth) && EntryOk(now, auth, e) && RequestOk(now, auth, q, r, e)
    requires ChangeOf(now, auth, e, r.phase, q, step) == Some(c) && Looks(step)
    ensures Keeps(now, auth, q, r, c)
  {
    hide Young;
    if step.ReadInterval? {
      assert auth.configs[|auth.configs| - 1].interval == c.next.phase.interval;
    }
    if step.CheckAge? && c.next == Go(Final) && e.session.Some? && e.session.value.oidc {
      AgeIsYoung(now, auth, r, r.(phase := Final), e.session.value.checkedAt, r.phase.interval);
    }
  }

  lemma RereadKeeps(now: nat, auth: Auth, q: nat, r: Request, e: Entry, step: Step, c: Change)
    requires AuthOk(auth) && EntryOk(now, auth, e) && RequestOk(now, auth, q, r, e)
    requires ChangeOf(now, auth, e, r.phase, q, step) == Some(c) && Rereads(step)
    ensures Keeps(now, auth, q, r, c)
  {
    hide Young;
    if step.ReadIntervalAgain? {
      assert auth.configs[|auth.configs| - 1].interval == c.next.phase.interval;
    }
    if step.CheckAgeAgain? && c.next == Go(Leaving(false)) && e.session.Some? {
      AgeIsYoung(now, auth, r, r.(phase := Leaving(false)), e.session.value.checkedAt, r.phase.interval);
    }
  }

  lemma AskKeeps(now: nat, auth: Auth, q: nat, r: Request, e: Entry, step: Step, c: Change)
    requires AuthOk(auth) && EntryOk(now, auth, e) && RequestOk(now, auth, q, r, e)
    requires ChangeOf(now, auth, e, r.phase, q, step) == Some(c) && Asks(step)
    ensures Keeps(now, auth, q, r, c)
  {
    hide Young, InForce;
  }

  lemma WriteKeeps(now: nat, auth: Auth, q: nat, r: Request, e: Entry, step: Step, c: Change)
    requires AuthOk(auth) && EntryOk(now, auth, e) && RequestOk(now, auth, q, r, e)
    requires ChangeOf(now, auth, e, r.phase, q, step) == Some(c) && Writes(step)
    ensures Keeps(now, auth, q, r, c)
  {
    hide AuthOk, EntryOk, RequestOk, Keeps, DoSaveToken, DoReadUserInfo, DoWriteRights, DoRevoke, DoRelease;
    match step
    case SaveToken(_) => SaveTokenKeeps(now, auth, q, r, e, c);
    case ReadUserInfo(_, user) => ReadUserInfoKeeps(now, auth, q, r, e, user, c);
    case WriteRights(_) => WriteRightsKeeps(now, auth, q, r, e, c);
    case Revoke(_) => RevokeKeeps(now, auth, q, r, e, c);
    case Release(_) => ReleaseKeeps(now, auth, q, r, e, c);
  }

  lemma SaveTokenKeeps(now: nat, auth: Auth, q: nat, r: Request, e: Entry, c: Change)
    requires AuthOk(auth) && EntryOk(now, auth, e) && RequestOk(now, auth, q, r, e)
    requires DoSaveToken(auth, e, r.phase) == Some(c)
    ensures Keeps(now, auth, q, r, c)
  {
    hide Young, InForce;
  }

  lemma ReadUserInfoKeeps(now: nat, auth: Auth, q: nat, r: Request, e: Entry, user: UserInfo, c: Change)
    requires AuthOk(auth) && EntryOk(now, auth, e) && RequestOk(now, auth, q, r, e)
    requires DoReadUserInfo(e, r.phase, user) == Some(c)
    ensures Keeps(now, auth, q, r, c)
  {
    hide Young, InForce;
  }

  lemma WriteRightsKeeps(now: nat, auth: Auth, q: nat, r: Request, e: Entry, c: Change)
    requires AuthOk(auth) && EntryOk(now, auth, e) && RequestOk(now, auth, q, r, e)
    requires DoWriteRights(now, auth, e, r.phase) == Some(c)
    ensures Keeps(now, auth, q, r, c)
  {
    hide Young, InForce;
    if c.next == Go(Leaving(false)) {
      JustChecked(now, auth, r.(phase := Leaving(false)));
    }
  }

  lemma RevokeKeeps(now: nat, auth: Auth, q: nat, r: Request, e: Entry, c: Change)
    requires AuthOk(auth) && EntryOk(now, auth, e) && RequestOk(now, auth, q, r, e)
    requires DoRevoke(e, r.phase) == Some(c)
    ensures Keeps(now, auth, q, r, c)
  {
    hide Young, InForce;
  }

  lemma ReleaseKeeps(now: nat, auth: Auth, q: nat, r: Request, e: Entry, c: Change)
    requires AuthOk(auth) && EntryOk(now, auth, e) && RequestOk(now, auth, q, r, e)
    requires DoRelease(e, r.phase) == Some(c)
    ensures Keeps(now, auth, q, r, c)
  {
    hide Young, InForce;
    if c.next.Go? && e.session.Some? && e.session.value.oidc {
      SameYoung(now, auth, r, r.(phase := Final), e.session.value.checkedAt);
    }
  }

  lemma SameYoung(now: nat, auth: Auth, r: Request, r': Request, checkedAt: nat)
    requires Young(now, auth, r, checkedAt) && r' == r.(phase := r'.phase)
    ensures Young(now, auth, r', checkedAt)
  {
  }

  /** For any other request of the same session, the step is one of those that may happen. */
  lemma StepsBeside(now: nat, auth: Auth, p: nat, r: Request, e: Entry, step: Step, c: Change, q: nat)
    requires EntryOk(now, auth, e) && RequestOk(now, auth, p, r, e) && p != q
    requires ChangeOf(now, auth, e, r.phase, p, step) == Some(c)
    ensures Beside(now, q, e, c.entry)
  {
    hide PhaseOk;
  }

  lemma OwnKeeps(now: nat, auth: Auth, q: nat, r: Request, e: Entry, step: Step, c: Change)
    requires AuthOk(auth) && EntryOk(now, auth, e) && RequestOk(now, auth, q, r, e)
    requires ChangeOf(now, auth, e, r.phase, q, step) == Some(c)
    ensures Keeps(now, auth, q, r, c)
  {
    hide AuthOk, EntryOk, RequestOk, Keeps;
    if Looks(step) {
      LookKeeps(now, auth, q, r, e, step, c);
    } else if Rereads(step) {
      RereadKeeps(now, auth, q, r, e, step, c);
    } else if Asks(step) {
      AskKeeps(now, auth, q, r, e, step, c);
    } else {
      WriteKeeps(now, auth, q, r, e, step, c);
    }
  }

  // The steps of the machine.

  lemma ActInv(s: State, q: nat, step: Step, s': State)
    requires Inv(s) && DoAct(s, q, step) == Some(s')
    ensures Inv(s')
  {
    hide EntryOk, RequestOk, LoginOk, AuthOk, ChangeOf;
    var c := RequestChange(s, q, step).value;
    var r := s.requests[q];
    OwnKeeps(s.now, s.auth, q, r, s.table[r.id], step, c);
    ActLocks(s, q, step, c);
    forall p | p in s'.requests
      ensures s'.requests[p].id in s'.table && RequestOk(s'.now, s'.auth, p, s'.requests[p],
                s'.table[s'.requests[p].id])
    {
      ActRequest(s, q, step, c, p);
    }
  }

  /** The step keeps what is known of each request, of the same session or of another one. */
  lemma ActRequest(s: State, q: nat, step: Step, c: Change, p: nat)
    requires Inv(s) && RequestChange(s, q, step) == Some(c) && p in Act(s, q, c).requests
    ensures var s' := Act(s, q, c);
            s'.requests[p].id in s'.table && RequestOk(s'.now, s'.auth, p, s'.requests[p], s'.table[s'.requests[p].id])
  {
    var r := s.requests[q];
    var e := s.table[r.id];
    assert EntryOk(s.now, s.auth, e) && RequestOk(s.now, s.auth, q, r, e) && AuthOk(s.auth);
    assert p in s.requests && RequestOk(s.now, s.auth, p, s.requests[p], s.table[s.requests[p].id]);
    hide Inv, EntryOk, RequestOk, AuthOk, ChangeOf;
    if p == q {
      OwnKeeps(s.now, s.auth, q, r, e, step, c);
    } else if s.requests[p].id == r.id {
      StepsBeside(s.now, s.auth, q, r, e, step, c, p);
      RequestMoves(s.now, s.auth, p, s.requests[p], e, s.now, s.auth, c.entry);
    }
  }

  lemma ActLocks(s: State, q: nat, step: Step, c: Change)
    requires Inv(s) && RequestChange(s, q, step) == Some(c)
    ensures LocksOk(Act(s, q, c))
  {
    hide EntryOk, RequestOk, LoginOk, AuthOk, ChangeOf;
    var r := s.requests[q];
    OthersKeepTheLock(s.now, s.auth, q, r, s.table[r.id], step, c);
    LocksStay(s, q, c);
  }

  lemma OthersKeepTheLock(now: nat, auth: Auth, q: nat, r: Request, e: Entry, step: Step, c: Change)
    requires RequestOk(now, auth, q, r, e) && ChangeOf(now, auth, e, r.phase, q, step) == Some(c)
    ensures c.entry.lock == e.lock || c.entry.lock == Some(q) || (e.lock == Some(q) && c.entry.lock.None?)
    ensures c.next.Answer? ==> c.entry.lock != Some(q)
  {
    hide PhaseOk;
  }

  lemma LocksStay(s: State, q: nat, c: Change)
    requires LocksOk(s) && q in s.requests && s.requests[q].id in s.table
    requires var e := s.table[s.requests[q].id];
             c.entry.lock == e.lock || c.entry.lock == Some(q) || (e.lock == Some(q) && c.entry.lock.None?)
    requires c.next.Answer? ==> c.entry.lock != Some(q)
    requires forall id :: id in s.table && s.table[id].lock == Some(q) ==> id == s.requests[q].id
    ensures LocksOk(Act(s, q, c))
  {
  }

  /** Everything but a step of a request or a new session. */
  lemma WorldInv(s: State, s': State)
    requires Inv(s) && s.now <= s'.now && Moves(s.auth, s'.auth) && AuthOk(s'.auth) && s'.requests == s.requests
    requires s'.table.Keys == s.table.Keys
    requires forall id :: id in s.table ==>
               || s'.table[id] == Removed(s.table[id])
               || (s'.table[id] == s.table[id] && (s.auth.reload.Bumped? ==> s'.auth.reload.Bumped?))
    requires forall l :: l in s'.logins ==> LoginOk(s'.now, s'.auth, s'.logins[l])
    ensures Inv(s')
  {
    hide EntryOk, RequestOk, LoginOk, AuthOk, Moves;
    forall id | id in s'.table ensures EntryOk(s'.now, s'.auth, s'.table[id]) {
      EntryMoves(s.now, s.auth, s.table[id], s'.now, s'.auth, s'.table[id]);
    }
    forall q | q in s'.requests ensures RequestOk(s'.now, s'.auth, q, s'.requests[q], s'.table[s'.requests[q].id]) {
      var r := s.requests[q];
      RequestMoves(s.now, s.auth, q, r, s.table[r.id], s'.now, s'.auth, s'.table[r.id]);
    }
  }

  lemma LoginsMove(s: State, s': State)
    requires Inv(s) && s.now <= s'.now && Moves(s.auth, s'.auth) && s'.logins == s.logins
    ensures forall l :: l in s'.logins ==> LoginOk(s'.now, s'.auth, s'.logins[l])
  {
    forall l | l in s'.logins ensures LoginOk(s'.now, s'.auth, s'.logins[l]) {
      LoginMoves(s.now, s.auth, s.logins[l], s'.now, s'.auth);
    }
  }

  predicate Reloads(step: Step) {
    step.Tick? || step.SwapConfig? || step.BumpGeneration? || step.ClearSessions? || step.Logout?
  }

  lemma ReloadInv(s: State, step: Step, s': State)
    requires Inv(s) && Apply(s, step) == Some(s') && Reloads(step)
    ensures Inv(s')
  {
    hide EntryOk, RequestOk, LoginOk;
    LoginsMove(s, s');
    WorldInv(s, s');
  }

  predicate LogsIn(step: Step) {
    step.BeginLogin? || step.ReadLoginConfig? || step.CheckLogin? || step.AbandonLogin?
  }

  lemma LoginInv(s: State, step: Step, s': State)
    requires Inv(s) && Apply(s, step) == Some(s') && LogsIn(step)
    ensures Inv(s')
  {
    hide EntryOk, RequestOk;
    WorldInv(s, s');
  }

  /** A login's session enters the table only under the configuration that it was made from. */
  lemma RememberInv(s: State, l: nat, id: Id, evicted: set<Id>, s': State)
    requires Inv(s) && DoRememberSession(s, l, id, evicted) == Some(s')
    ensures Inv(s')
  {
    var others := s.(logins := s.logins - {l}, table := if id in s'.table then Without(s.table, evicted) else s.table);
    if id in s'.table {
      var e := s'.table[id];
      assert e.lock.None? && EntryOk(s.now, s.auth, e) by {
        assert LoginOk(s.now, s.auth, s.logins[l]);
        hide Inv;
      }
      hide Inv, EntryOk;
      OthersInv(s, others);
      NewEntryInv(others, id, e);
    } else {
      OthersInv(s, others);
    }
  }

  lemma OthersInv(s: State, others: State)
    requires Inv(s) && others == s.(logins := others.logins, table := others.table)
              && others.logins.Keys <= s.logins.Keys
    requires forall l :: l in others.logins ==> others.logins[l] == s.logins[l]
    requires others.table.Keys == s.table.Keys
    requires forall id :: id in s.table ==> others.table[id] == s.table[id] || others.table[id] == Removed(s.table[id])
    ensures Inv(others)
  {
    hide EntryOk, RequestOk, LoginOk, AuthOk;
    WorldInv(s, others);
  }

  lemma NewEntryInv(s: State, id: Id, e: Entry)
    requires Inv(s) && id !in s.table && EntryOk(s.now, s.auth, e) && e.lock.None?
    ensures Inv(s.(table := s.table[id := e]))
  {
    hide EntryOk, RequestOk, LoginOk, AuthOk;
  }

  lemma StartInv(s: State, q: nat, id: Id, s': State)
    requires Inv(s) && DoStartRequest(s, q, id) == Some(s')
    ensures Inv(s')
  {
    if q in s'.requests {
      var e, r := s.table[id], s'.requests[q];
      assert e.lock != Some(q);
      assert EntryOk(s.now, s.auth, e);
      assert RequestOk(s.now, s.auth, q, r, e);
    }
    hide EntryOk, RequestOk, LoginOk, AuthOk;
  }

  /** Every step keeps the invariant. */
  lemma StepInv(s: State, step: Step, s': State)
    requires Inv(s) && Apply(s, step) == Some(s')
    ensures Inv(s')
  {
    hide Inv, DoAct, DoStartRequest, DoRememberSession;
    match step
    case Tick(_) => ReloadInv(s, step, s');
    case SwapConfig(_) => ReloadInv(s, step, s');
    case BumpGeneration => ReloadInv(s, step, s');
    case ClearSessions => ReloadInv(s, step, s');
    case Logout(_) => ReloadInv(s, step, s');
    case BeginLogin(_, _) => LoginInv(s, step, s');
    case ReadLoginConfig(_) => LoginInv(s, step, s');
    case CheckLogin(_, _, _, _) => LoginInv(s, step, s');
    case AbandonLogin(_) => LoginInv(s, step, s');
    case RememberSession(l, id, evicted) => RememberInv(s, l, id, evicted, s');
    case StartRequest(q, id) => StartInv(s, q, id, s');
    case _ => ActInv(s, step.q, step, s');
  }

  lemma {:induction false} RunInv(s: State, steps: seq<Step>, s': State)
    requires Inv(s) && Run(s, steps) == Some(s')
    ensures Inv(s')
  {
    if steps != [] {
      var n := |steps| - 1;
      var before := Run(s, steps[..n]).value;
      RunInv(s, steps[..n], before);
      StepInv(before, steps[n], s');
    }
  }

  ghost predicate Reachable(config: Config, s: State) {
    exists steps :: Run(Init(config), steps) == Some(s)
  }

  lemma ReachableInv(config: Config, s: State)
    requires config.interval > 0 && Reachable(config, s)
    ensures Inv(s)
  {
    var steps :| Run(Init(config), steps) == Some(s);
    RunInv(Init(config), steps, s);
  }

  // The promises.

  /**
   Whenever no reload holds the gate, every session in the table has exactly the rights that
   the active configuration gives: to a local user, or to the groups the provider last named.
   */
  lemma RightsAreCurrent(config: Config, s: State, id: Id)
    requires config.interval > 0 && Reachable(config, s) && s.auth.reload.Idle?
    requires id in s.table && s.table[id].session.Some?
    ensures RightsOk(s.auth.config, s.table[id].session.value, s.table[id].groups)
  {
    ReachableInv(config, s);
    assert EntryOk(s.now, s.auth, s.table[id]);
  }

  /** What the handlers ask of a session before they serve a namespace. */
  predicate Allows(rights: Rights, namespace: string) {
    rights.admin || namespace in rights.namespaces
  }

  /** Some group of the user is mapped to the namespace, or to everything. */
  ghost predicate GroupAllows(config: Config, groups: set<string>, namespace: string) {
    exists m :: m in config.mappings && m.group in groups && (m.admin || namespace in m.namespaces)
  }

  /**
   So, whenever no reload holds the gate, a local user may reach every namespace and is listed
   for those of the active configuration, and an OIDC user may reach exactly those to which the
   active configuration maps one of the groups that the provider last named.
   */
  lemma AllowedIff(config: Config, s: State, id: Id, namespace: string)
    requires config.interval > 0 && Reachable(config, s) && s.auth.reload.Idle?
    requires id in s.table && s.table[id].session.Some?
    ensures var session := s.table[id].session.value;
            && (Allows(session.rights, namespace) <==>
                  !session.oidc || GroupAllows(s.auth.config, s.table[id].groups, namespace))
            && (!session.oidc ==> session.rights.namespaces == s.auth.config.namespaces)
  {
    RightsAreCurrent(config, s, id);
  }

  function SessionOf(s: State, id: Id): Option<Session> {
    if id in s.table then s.table[id].session else None
  }

  predicate Written(before: Option<Session>, after: Session) {
    before.None? || before.value.rights != after.rights || before.value.refresh != after.refresh
  }

  /** The generation that a login or a refresh read before it began its work. */
  function ReadGeneration(s: State, step: Step): Option<nat> {
    match step
    case RememberSession(l, _, _) => if l in s.logins then Some(s.logins[l].generation) else None
    case SaveToken(q) =>
      if q in s.requests && s.requests[q].phase.Answered? then Some(s.requests[q].phase.generation) else None
    case WriteRights(q) =>
      if q in s.requests && s.requests[q].phase.Informed? then Some(s.requests[q].phase.generation) else None
    case _ => None
  }

  /**
   A session enters the table, or gets new rights or a new token, only by a login or refresh
   that began in the present generation, and it has the rights of the active configuration.
   */
  lemma OnlyCurrentWrites(config: Config, s: State, step: Step, s': State, id: Id)
    requires config.interval > 0 && Reachable(config, s) && Apply(s, step) == Some(s') && SessionOf(s', id).Some?
    requires Written(SessionOf(s, id), SessionOf(s', id).value)
    ensures s.auth.reload.Idle? && ReadGeneration(s, step) == Some(s.auth.generation)
    ensures RightsOk(s.auth.config, SessionOf(s', id).value, s'.table[id].groups)
  {
    ReachableInv(config, s);
    hide Inv, Run;
    StepInv(s, step, s');
    WritesInGeneration(s, step, s', id);
    SessionRights(s', id);
  }

  lemma SessionRights(s: State, id: Id)
    requires Inv(s) && s.auth.reload.Idle? && SessionOf(s, id).Some?
    ensures RightsOk(s.auth.config, SessionOf(s, id).value, s.table[id].groups)
  {
    assert EntryOk(s.now, s.auth, s.table[id]);
  }

  lemma WritesInGeneration(s: State, step: Step, s': State, id: Id)
    requires Apply(s, step) == Some(s') && SessionOf(s', id).Some?
    requires Written(SessionOf(s, id), SessionOf(s', id).value)
    ensures s.auth.reload.Idle? && ReadGeneration(s, step) == Some(s.auth.generation) && s'.auth == s.auth
  {
    hide Apply, DoAct;
    if LeavesTable(step) {
      TableStays(s, step, s');
    } else if step.RememberSession? {
      LoginWrites(s, step, s', id);
    } else if step.ClearSessions? || step.Logout? {
      OnlyRemovals(s, step, s');
    } else {
      IsAct(s, step, s');
      OnlyWriteRights(s, step.q, step, s', id);
    }
  }

  lemma LoginWrites(s: State, step: Step, s': State, id: Id)
    requires Apply(s, step) == Some(s') && step.RememberSession? && SessionOf(s', id).Some?
    requires Written(SessionOf(s, id), SessionOf(s', id).value)
    ensures s.auth.reload.Idle? && ReadGeneration(s, step) == Some(s.auth.generation) && s'.auth == s.auth
  {
    hide DoAct;
  }

  /** The steps that do not touch the table. */
  predicate LeavesTable(step: Step) {
    || step.StartRequest? || step.Tick? || step.SwapConfig? || step.BumpGeneration?
    || step.BeginLogin? || step.ReadLoginConfig? || step.CheckLogin? || step.AbandonLogin?
  }

  lemma TableStays(s: State, step: Step, s': State)
    requires Apply(s, step) == Some(s') && LeavesTable(step)
    ensures s'.table == s.table
  {
    hide DoAct, DoClearSessions, DoRememberSession, Without, LoginSession;
  }

  lemma OnlyRemovals(s: State, step: Step, s': State)
    requires Apply(s, step) == Some(s') && (step.ClearSessions? || step.Logout?)
    ensures s'.table.Keys == s.table.Keys
    ensures forall id :: id in s.table ==> s'.table[id] == s.table[id] || s'.table[id] == Removed(s.table[id])
  {
    hide DoAct, DoRememberSession, DoStartRequest, DoSwapConfig, DoBumpGeneration, DoCheckLogin, DoBeginLogin,
      DoReadLoginConfig;
  }

  lemma IsAct(s: State, step: Step, s': State)
    requires Apply(s, step) == Some(s') && !LeavesTable(step)
    requires !step.RememberSession? && !step.ClearSessions? && !step.Logout?
    ensures DoAct(s, step.q, step) == Some(s')
  {
    hide DoAct, DoClearSessions, DoRememberSession, DoStartRequest, DoSwapConfig, DoBumpGeneration, DoCheckLogin,
      DoBeginLogin, DoReadLoginConfig;
  }

  lemma OnlyWriteRights(s: State, q: nat, step: Step, s': State, id: Id)
    requires DoAct(s, q, step) == Some(s') && SessionOf(s', id).Some?
    requires Written(SessionOf(s, id), SessionOf(s', id).value)
    ensures (step.WriteRights? || step.SaveToken?) && s.auth.reload.Idle? && s'.auth == s.auth
    ensures step.q == q ==> ReadGeneration(s, step) == Some(s.auth.generation)
  {
  }

  /** Nobody refreshes a session while another request does. */
  lemma OneRefreshAtATime(config: Config, s: State, p: nat, q: nat)
    requires config.interval > 0 && Reachable(config, s) && p in s.requests && q in s.requests
    requires s.requests[p].id == s.requests[q].id && Locked(s.requests[p].phase) && Locked(s.requests[q].phase)
    ensures p == q
  {
    ReachableInv(config, s);
    assert RequestOk(s.now, s.auth, p, s.requests[p], s.table[s.requests[p].id]);
    assert RequestOk(s.now, s.auth, q, s.requests[q], s.table[s.requests[q].id]);
  }

  /** The step sends this refresh token, which is the one at that place among those received. */
  predicate Sends(s: State, step: Step, id: Id, held: Held) {
    && step.Present? && step.q in s.requests && s.requests[step.q].id == id
    && s.requests[step.q].phase.Configured? && s.requests[step.q].phase.session.refresh == Some(held)
  }

  /**
   Each refresh presents the last token that came with an access token, also if the attempt
   that received it failed later. This is the last token received for the session if and only
   if that one came with an access token.
   */
  lemma NewestIsPresented(config: Config, s: State, step: Step, s': State, id: Id)
    requires config.interval > 0 && Reachable(config, s) && Apply(s, step) == Some(s') && step.Present?
    requires step.q in s.requests && s.requests[step.q].id == id
    ensures id in s.table && s.requests[step.q].phase.Configured? && s.requests[step.q].phase.session.refresh.Some?
    ensures var held, receipts := s.requests[step.q].phase.session.refresh.value, s.table[id].receipts;
            && Sends(s, step, id, held)
            && held.index < |receipts| && receipts[held.index] == Receipt(held.token, true)
            && (forall k :: held.index < k < |receipts| ==> !receipts[k].access)
            && (held.index == |receipts| - 1 <==> receipts[|receipts| - 1].access)
  {
    ReachableInv(config, s);
    assert RequestOk(s.now, s.auth, step.q, s.requests[step.q], s.table[id]);
    hide Inv;
  }

  /** Once a session id has left the table it never comes back. */
  ghost predicate NoneReturns(s: State, s': State) {
    forall id :: id in s.table ==> id in s'.table && (s.table[id].session.None? ==> s'.table[id].session.None?)
  }

  lemma StepReturnsNone(s: State, step: Step, s': State)
    requires Apply(s, step) == Some(s')
    ensures NoneReturns(s, s')
  {
    hide Apply, DoAct;
    if LeavesTable(step) {
      TableStays(s, step, s');
    } else if step.RememberSession? {
      LoginReturnsNone(s, step, s');
    } else if step.ClearSessions? || step.Logout? {
      OnlyRemovals(s, step, s');
    } else {
      IsAct(s, step, s');
      ActReturnsNone(s, step.q, step, s');
    }
  }

  lemma LoginReturnsNone(s: State, step: Step, s': State)
    requires Apply(s, step) == Some(s') && step.RememberSession?
    ensures NoneReturns(s, s')
  {
    hide DoAct;
  }

  lemma ActReturnsNone(s: State, q: nat, step: Step, s': State)
    requires DoAct(s, q, step) == Some(s')
    ensures NoneReturns(s, s')
  {
  }

  lemma {:induction false} RemovedForever(s: State, steps: seq<Step>, s': State)
    requires Run(s, steps) == Some(s')
    ensures NoneReturns(s, s')
  {
    if steps != [] {
      var n := |steps| - 1;
      var before := Run(s, steps[..n]).value;
      RemovedForever(s, steps[..n], before);
      StepReturnsNone(before, steps[n], s');
    }
  }

  /** It is the same session, perhaps checked again. */
  predicate SameSession(before: Session, after: Session) {
    && after.oidc == before.oidc && after.expiresAt == before.expiresAt && after.subject == before.subject
    && before.checkedAt <= after.checkedAt
  }

  ghost predicate Continues(s: State, s': State) {
    forall id :: SessionOf(s', id).Some? && id in s.table ==>
      SessionOf(s, id).Some? && SameSession(SessionOf(s, id).value, SessionOf(s', id).value)
  }

  lemma StepContinues(s: State, step: Step, s': State)
    requires Inv(s) && Apply(s, step) == Some(s')
    ensures Continues(s, s')
  {
    hide Apply, DoAct, Inv;
    if LeavesTable(step) {
      TableStays(s, step, s');
    } else if step.RememberSession? {
      LoginContinues(s, step, s');
    } else if step.ClearSessions? || step.Logout? {
      OnlyRemovals(s, step, s');
    } else {
      IsAct(s, step, s');
      ActContinues(s, step.q, step, s');
    }
  }

  lemma LoginContinues(s: State, step: Step, s': State)
    requires Apply(s, step) == Some(s') && step.RememberSession?
    ensures Continues(s, s')
  {
    hide DoAct;
  }

  lemma ActContinues(s: State, q: nat, step: Step, s': State)
    requires Inv(s) && DoAct(s, q, step) == Some(s')
    ensures Continues(s, s')
  {
    var id := s.requests[q].id;
    var c := RequestChange(s, q, step).value;
    assert EntryOk(s.now, s.auth, s.table[id]);
    hide Inv;
    EntryContinues(s.now, s.auth, s.table[id], s.requests[q].phase, q, step, c);
  }

  lemma EntryContinues(now: nat, auth: Auth, e: Entry, phase: Phase, q: nat, step: Step, c: Change)
    requires EntryOk(now, auth, e) && ChangeOf(now, auth, e, phase, q, step) == Some(c)
    ensures c.entry.session.Some? ==> e.session.Some? && SameSession(e.session.value, c.entry.session.value)
  {
    hide OidcPermissions, Expired;
  }

  /** As long as it is in the table a session keeps its kind, its user and its expiry. */
  lemma {:induction false} SessionsContinue(s: State, steps: seq<Step>, s': State)
    requires Inv(s) && Run(s, steps) == Some(s')
    ensures Continues(s, s') && Inv(s')
  {
    hide Inv, Apply, SessionOf;
    if steps != [] {
      var n := |steps| - 1;
      var before := Run(s, steps[..n]).value;
      SessionsContinue(s, steps[..n], before);
      RemovedForever(s, steps[..n], before);
      StepContinues(before, steps[n], s');
      StepInv(before, steps[n], s');
      ContinuesOn(s, before, s');
    }
  }

  lemma ContinuesOn(s: State, s1: State, s2: State)
    requires Continues(s, s1) && Continues(s1, s2) && NoneReturns(s, s1)
    ensures Continues(s, s2)
  {
  }

  /**
   The step ends the session `id`: a reload, a logout, a revocation, its removal after a look
   that found it expired, with or without the refresh lock, or its eviction by a login.
   */
  predicate Ends(s: State, step: Step, id: Id) {
    match step
    case ClearSessions => true
    case Logout(x) => x == id
    case Revoke(q) => q in s.requests && s.requests[q].id == id
    case RemoveExpired(q) => q in s.requests && s.requests[q].id == id
    case RememberSession(l, _, evicted) =>
      l in s.logins && s.logins[l].generation == s.auth.generation && id in evicted
    case _ => false
  }

  /** After a look that finds it expired, a request can only remove the session, and gets none. */
  lemma ExpiredIsRemoved(s: State, step: Step, s': State, q: nat)
    requires Apply(s, step) == Some(s') && q in s.requests && s.requests[q].id in s.table
    requires step == CheckExpiry(q) || step == CheckExpiryAgain(q) || step == Finish(q)
    requires var phase := s.requests[q].phase;
             || ((phase.Looked? || phase.Current?) && Expired(phase.session, s.now))
             || (phase.Final? && SessionOf(s, s.requests[q].id).Some?
                 && Expired(SessionOf(s, s.requests[q].id).value, s.now))
    ensures q in s'.requests && (s'.requests[q].phase.Expiring? || s'.requests[q].phase.Revoking?)
    ensures forall next, c :: RequestChange(s', q, next) == Some(c) ==>
              (next.RemoveExpired? || next.Revoke?) && c.entry.session.None?
  {
    var e, phase := s.table[s.requests[q].id], s.requests[q].phase;
    assert DoAct(s, q, step) == Some(s');
    assert s'.requests[q].phase.Expiring? || s'.requests[q].phase.Revoking?;
    hide RequestChange, Act;
    forall next, c | RequestChange(s', q, next) == Some(c)
      ensures (next.RemoveExpired? || next.Revoke?) && c.entry.session.None?
    {
      OnlyRemoves(s', q, next, c);
    }
  }

  lemma OnlyRemoves(s: State, q: nat, step: Step, c: Change)
    requires RequestChange(s, q, step) == Some(c) && (s.requests[q].phase.Expiring? || s.requests[q].phase.Revoking?)
    ensures (step.RemoveExpired? || step.Revoke?) && c.entry.session.None?
  {
  }

  /** A session that was ended is in the table at no later time. */
  lemma EndedForGood(s: State, step: Step, s1: State, later: seq<Step>, s2: State, id: Id)
    requires Apply(s, step) == Some(s1) && Ends(s, step, id) && Run(s1, later) == Some(s2) && id in s.table
    ensures SessionOf(s2, id).None?
  {
    RemovedForever(s1, later, s2);
    StepReturnsNone(s, step, s1);
    assert s1.table[id].session.None?;
  }

  /**
   A request gets a session only if it is unexpired at the last look. An OIDC session was
   then checked less than the refresh interval ago, at some instant of the request and by an
   interval that was in force during it, and its rights are the current ones.
   */
  lemma GrantedIsFresh(config: Config, s: State, q: nat, c: Change)
    requires config.interval > 0 && Reachable(config, s) && q in s.requests
    requires RequestChange(s, q, Finish(q)) == Some(c) && c.next.Answer? && c.next.reply.Granted?
    ensures FreshlyGranted(s, s.requests[q], c.next.reply.session)
  {
    ReachableInv(config, s);
    FinishGrants(s, q, c);
  }

  ghost predicate FreshlyGranted(s: State, r: Request, session: Session) {
    && SessionOf(s, r.id) == Some(session) && s.now < session.expiresAt
    && (session.oidc ==> Young(s.now, s.auth, r, session.checkedAt))
    && (s.auth.reload.Idle? ==> RightsOk(s.auth.config, session, s.table[r.id].groups))
  }

  lemma FinishGrants(s: State, q: nat, c: Change)
    requires Inv(s) && q in s.requests
    requires RequestChange(s, q, Finish(q)) == Some(c) && c.next.Answer? && c.next.reply.Granted?
    ensures FreshlyGranted(s, s.requests[q], c.next.reply.session)
  {
    hide Young, EntryOk, RequestOk, AuthOk, LocksOk, LoginOk, RightsOk;
    var r := s.requests[q];
    FinalIsFresh(s.now, s.auth, q, r, s.table[r.id], c);
  }

  lemma FinalIsFresh(now: nat, auth: Auth, q: nat, r: Request, e: Entry, c: Change)
    requires RequestOk(now, auth, q, r, e) && EntryOk(now, auth, e)
    requires DoFinish(now, e, r.phase) == Some(c) && c.next.Answer? && c.next.reply.Granted?
    ensures var session := c.next.reply.session;
            && e.session == Some(session) && now < session.expiresAt
            && (session.oidc ==> Young(now, auth, r, session.checkedAt))
            && (auth.reload.Idle? ==> RightsOk(auth.config, session, e.groups))
  {
    hide Young;
  }

  // A refresh token that comes without an access token is lost: a run.

  const SAMPLE := Config("", false, true, {}, [], 1, 100)
  const SAMPLE_SESSION := Session(true, OidcPermissions(SAMPLE, {}), 100, Some(Held("a", 0)), "user", 0)

  function SampleEntry(receipts: seq<Receipt>, lock: Option<nat>): Entry {
    Entry(Some(SAMPLE_SESSION), lock, receipts, {})
  }

  /** One second after a login the session is due for a refresh. */
  function Sample(e: Entry, requests: map<nat, Request>): State {
    State(1, Init(SAMPLE).auth, map["id" := e], map[], requests)
  }

  function Asking(q: nat, e: Entry, phase: Phase): State {
    Sample(e, map[q := Request("id", 1, 1, phase)])
  }

  lemma Extend(steps: seq<Step>, s1: State, step: Step, s2: State) returns (more: seq<Step>)
    requires Run(Init(SAMPLE), steps) == Some(s1) && Apply(s1, step) == Some(s2)
    ensures Run(Init(SAMPLE), more) == Some(s2)
  {
    more := steps + [step];
    assert more[..|steps|] == steps;
  }

  /** The request `q` takes one step. */
  lemma Advance(steps: seq<Step>, q: nat, e: Entry, phase: Phase, step: Step, e': Entry, phase': Phase)
    returns (more: seq<Step>)
    requires Run(Init(SAMPLE), steps) == Some(Asking(q, e, phase)) && !step.StartRequest?
    requires ChangeOf(1, Init(SAMPLE).auth, e, phase, q, step) == Some(Change(e', Go(phase'))) && step.q == q
    ensures Run(Init(SAMPLE), more) == Some(Asking(q, e', phase'))
  {
    var s, c := Asking(q, e, phase), Change(e', Go(phase'));
    assert Act(s, q, c).table == map["id" := e'];
    assert Act(s, q, c).requests == map[q := Request("id", 1, 1, phase')];
    hide ChangeOf;
    more := Extend(steps, s, step, Asking(q, e', phase'));
  }

  lemma SampleLogin() returns (steps: seq<Step>)
    ensures Run(Init(SAMPLE), steps) == Some(Sample(SampleEntry([Receipt("a", true)], None), map[]))
  {
    var s, login, after := Init(SAMPLE), Login(true, 0, LoginBegun),
      Sample(SampleEntry([Receipt("a", true)], None), map[]);
    var ready := LoginReady(SAMPLE, SAMPLE_SESSION, [Receipt("a", true)], {});
    var s1, s2 := s.(logins := map[0 := login]), s.(logins := map[0 := login.(phase := LoginConfigured(SAMPLE))]);
    var s3 := s.(logins := map[0 := login.(phase := ready)]);
    steps := Extend([], s, BeginLogin(0, true), s1);
    assert s1.logins[0 := s2.logins[0]] == s2.logins;
    steps := Extend(steps, s1, ReadLoginConfig(0), s2);
    assert s2.logins[0 := s3.logins[0]] == s3.logins;
    steps := Extend(steps, s2, CheckLogin(0, {}, "user", Some("a")), s3);
    assert s3.logins - {0} == map[];
    assert Without(s3.table, {})["id" := after.table["id"]] == after.table;
    steps := Extend(steps, s3, RememberSession(0, "id", {}), after.(now := 0));
    steps := Extend(steps, after.(now := 0), Tick(1), after);
  }

  /** A request finds the session due and takes its lock. */
  lemma SampleLook(receipts: seq<Receipt>, q: nat)
    ensures var free := SampleEntry(receipts, None);
            Apply(Sample(free, map[]), StartRequest(q, "id")) == Some(Asking(q, free, Looked(SAMPLE_SESSION)))
  {
  }

  lemma SampleLock(before: seq<Step>, receipts: seq<Receipt>, q: nat) returns (steps: seq<Step>)
    requires Run(Init(SAMPLE), before) == Some(Sample(SampleEntry(receipts, None), map[]))
    ensures Run(Init(SAMPLE), steps) == Some(Asking(q, SampleEntry(receipts, Some(q)), Current(SAMPLE_SESSION)))
  {
    hide Run, Asking, Apply;
    var x, free, e := SAMPLE_SESSION, SampleEntry(receipts, None), SampleEntry(receipts, Some(q));
    SampleLook(receipts, q);
    steps := Extend(before, Sample(free, map[]), StartRequest(q, "id"), Asking(q, free, Looked(x)));
    steps := Advance(steps, q, free, Looked(x), CheckExpiry(q), free, Unexpired(x));
    steps := Advance(steps, q, free, Unexpired(x), ReadInterval(q), free, Timed(x, 1));
    steps := Advance(steps, q, free, Timed(x, 1), CheckAge(q), free, Waiting);
    steps := Advance(steps, q, free, Waiting, TakeLock(q), e, Holding);
    steps := Advance(steps, q, e, Holding, Reread(q), e, Current(x));
  }

  /** It goes on until it is about to present its refresh token. */
  lemma SampleRefresh(before: seq<Step>, receipts: seq<Receipt>, q: nat) returns (steps: seq<Step>)
    requires Run(Init(SAMPLE), before) == Some(Sample(SampleEntry(receipts, None), map[]))
    ensures Run(Init(SAMPLE), steps) == Some(Asking(q, SampleEntry(receipts, Some(q)),
              Configured(SAMPLE_SESSION, 0, SAMPLE)))
  {
    hide Run, Asking, Apply;
    var x, e := SAMPLE_SESSION, SampleEntry(receipts, Some(q));
    steps := SampleLock(before, receipts, q);
    hide Run, Asking, Apply;
    steps := Advance(steps, q, e, Current(x), CheckExpiryAgain(q), e, CurrentUnexpired(x));
    steps := Advance(steps, q, e, CurrentUnexpired(x), ReadIntervalAgain(q), e, CurrentTimed(x, 1));
    steps := Advance(steps, q, e, CurrentTimed(x, 1), CheckAgeAgain(q), e, Due(x));
    steps := Advance(steps, q, e, Due(x), BeginRefresh(q), e, Began(x, 0));
    steps := Advance(steps, q, e, Began(x, 0), ReadConfig(q), e, Configured(x, 0, SAMPLE));
  }

  /** A refresh may present a token although a newer one was received for the session. */
  lemma NewestMayBeDropped()
    ensures exists s, held :: Reachable(SAMPLE, s) && Sends(s, Present(1), "id", held) && Apply(s, Present(1)).Some?
                              && "id" in s.table && held.index + 1 < |s.table["id"].receipts|
  {
    var x, ab := SAMPLE_SESSION, [Receipt("a", true), Receipt("b", false)];
    var e, e' := SampleEntry([Receipt("a", true)], Some(0)), SampleEntry(ab, Some(0));
    var s := Asking(1, SampleEntry(ab, Some(1)), Configured(x, 0, SAMPLE));
    var steps := SampleLogin();
    steps := SampleRefresh(steps, [Receipt("a", true)], 0);
    steps := Advance(steps, 0, e, Configured(x, 0, SAMPLE), Present(0), e, Presented(x, 0, SAMPLE));
    assert [Receipt("a", true)] + [Receipt("b", false)] == ab;
    steps := Advance(steps, 0, e, Presented(x, 0, SAMPLE), Receive(0, NoAccess(Some("b"))), e', Leaving(true));
    SampleRelease(e');
    steps := Extend(steps, Asking(0, e', Leaving(true)), Release(0), Sample(e'.(lock := None), map[]));
    steps := SampleRefresh(steps, ab, 1);
    assert Reachable(SAMPLE, s) && Sends(s, Present(1), "id", Held("a", 0));
  }

  lemma SampleRelease(e: Entry)
    ensures Apply(Asking(0, e, Leaving(true)), Release(0)) == Some(Sample(e.(lock := None), map[]))
  {
    var s := Asking(0, e, Leaving(true));
    assert s.table["id" := e.(lock := None)] == map["id" := e.(lock := None)];
    assert s.requests - {0} == map[];
  }
}
