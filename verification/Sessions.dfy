/**
 Web sessions and configuration reloads (src/app.rs) as a state machine. Each block that a
 lock protects is one step, and so is each comparison with the time after such a block; logins,
 requests, refreshes and reloads interleave freely.

 `auth_gate` is a read/write lock around the generation. A reload holds it for writing over
 several steps; a step that takes it for reading waits until no reload is under way.
 */
module Sessions {
  import opened Wrappers

  type Id = string

  datatype Mapping = Mapping(group: string, admin: bool, namespaces: set<string>)

  /** The settings that matter here; `fixed` stands for those that only a restart can change. */
  datatype Config = Config(
    fixed: string,
    localEnabled: bool,
    oidcEnabled: bool,
    namespaces: set<string>,
    mappings: seq<Mapping>,
    interval: nat,
    ttl: nat)

  datatype Rights = Rights(admin: bool, namespaces: set<string>)

  /** A refresh token and its place among the tokens received for its session. */
  datatype Held = Held(token: string, index: nat)

  datatype Session = Session(
    oidc: bool,
    rights: Rights,
    expiresAt: nat,
    refresh: Option<Held>,
    subject: string,
    checkedAt: nat)

  /** A refresh token in a response, and whether an access token came with it. */
  datatype Receipt = Receipt(token: string, access: bool)

  /**
   All about one session id: its session while that is in the table, the holder of its
   refresh lock, and as history the tokens received for it and the groups last applied.
   */
  datatype Entry = Entry(session: Option<Session>, lock: Option<nat>, receipts: seq<Receipt>, groups: set<string>)

  /** A reload, while it holds the gate: first the configuration changes, then the generation. */
  datatype Reload = Idle | Swapped(before: Config) | Bumped(before: Config)

  /** `configs` lists every configuration so far, the active one last. */
  datatype Auth = Auth(config: Config, generation: nat, reload: Reload, configs: seq<Config>)

  datatype LoginPhase =
    | LoginBegun
    | LoginConfigured(config: Config)
    | LoginReady(config: Config, session: Session, receipts: seq<Receipt>, groups: set<string>)

  datatype Login = Login(oidc: bool, generation: nat, phase: LoginPhase)

  /** Where a request is in `session_from_headers` and `refresh_oidc_session`. */
  datatype Phase =
    | Looked(session: Session)                     // the first copy of the session
    | Expiring                                     // the session is expired and to be removed
    | Unexpired(session: Session)
    | Timed(session: Session, interval: nat)       // the interval is read
    | Waiting                                      // for the refresh lock
    | Holding                                      // the refresh lock
    | Current(session: Session)                    // the copy made under the lock
    | CurrentUnexpired(session: Session)
    | CurrentTimed(session: Session, interval: nat)
    | Due(session: Session)                        // to be refreshed
    | Began(session: Session, generation: nat)
    | Configured(session: Session, generation: nat, config: Config)
    | Presented(session: Session, generation: nat, config: Config)
    | Answered(session: Session, generation: nat, config: Config, rotated: Option<Held>)
    | Saved(session: Session, generation: nat, config: Config)
    | Informed(session: Session, generation: nat, config: Config, groups: set<string>)
    | Revoking                                     // the session is to be removed
    | Leaving(failed: bool)                        // about to release the lock
    | Final                                        // before the last look at the table

  /** A request for the session `id`, made at the time `since`, after `from` configurations. */
  datatype Request = Request(id: Id, since: nat, from: nat, phase: Phase)

  datatype Reply = NoSession | Unavailable | Granted(session: Session)

  datatype State = State(
    now: nat,
    auth: Auth,
    table: map<Id, Entry>,
    logins: map<nat, Login>,
    requests: map<nat, Request>)

  function Init(config: Config): State {
    State(0, Auth(config, 0, Idle, [config]), map[], map[], map[])
  }

  /** What the provider answers to a refresh token. */
  datatype Response =
    | InvalidGrant
    | Unusable
    | NoAccess(refresh: Option<string>)
    | Tokens(refresh: Option<string>)

  datatype UserInfo = NoUser | User(subject: Option<string>, groups: set<string>)

  datatype Step =
    | Tick(seconds: nat)
    | SwapConfig(next: Config)
    | BumpGeneration
    | ClearSessions
    | BeginLogin(l: nat, oidc: bool)
    | ReadLoginConfig(l: nat)
    | CheckLogin(l: nat, groups: set<string>, subject: string, token: Option<string>)
    | RememberSession(l: nat, id: Id, evicted: set<Id>)
    | AbandonLogin(l: nat)
    | Logout(id: Id)
    | StartRequest(q: nat, id: Id)
    | CheckExpiry(q: nat)
    | RemoveExpired(q: nat)
    | ReadInterval(q: nat)
    | CheckAge(q: nat)
    | TakeLock(q: nat)
    | Reread(q: nat)
    | CheckExpiryAgain(q: nat)
    | ReadIntervalAgain(q: nat)
    | CheckAgeAgain(q: nat)
    | BeginRefresh(q: nat)
    | ReadConfig(q: nat)
    | Present(q: nat)
    | Receive(q: nat, response: Response)
    | SaveToken(q: nat)
    | ReadUserInfo(q: nat, user: UserInfo)
    | WriteRights(q: nat)
    | Fail(q: nat)
    | Revoke(q: nat)
    | Release(q: nat)
    | Finish(q: nat)

  // Permissions and times.

  function OidcPermissions(config: Config, groups: set<string>): Rights {
    Rights(
      exists m :: m in config.mappings && m.admin && m.group in groups,
      set m, n | m in config.mappings && m.group in groups && n in m.namespaces :: n)
  }

  /** Each group adds its own rights, no group takes any away, and without groups there are none. */
  lemma GroupsAddUp(config: Config, groups: set<string>, others: set<string>)
    ensures var all, some, rest := OidcPermissions(config, groups + others), OidcPermissions(config, groups),
                                   OidcPermissions(config, others);
            && (all.admin <==> some.admin || rest.admin) && all.namespaces == some.namespaces + rest.namespaces
    ensures OidcPermissions(config, {}) == Rights(false, {})
  {
  }

  /** A group has the rights of the mappings that name it, and of no other one. */
  lemma MappingsAddUp(config: Config, mappings: seq<Mapping>, m: Mapping, group: string)
    ensures var before, after := OidcPermissions(config.(mappings := mappings), {group}),
                                 OidcPermissions(config.(mappings := mappings + [m]), {group});
            after == if m.group != group then before
                     else Rights(before.admin || m.admin, before.namespaces + m.namespaces)
    ensures OidcPermissions(config.(mappings := []), {group}) == Rights(false, {})
  {
    var before, after := OidcPermissions(config.(mappings := mappings), {group}),
                         OidcPermissions(config.(mappings := mappings + [m]), {group});
    assert forall x :: x in mappings + [m] <==> x in mappings || x == m;
    assert after.namespaces == if m.group != group then before.namespaces else before.namespaces + m.namespaces;
  }

  function LocalRights(config: Config): Rights {
    Rights(true, config.namespaces)
  }

  predicate Expired(session: Session, now: nat) {
    session.expiresAt <= now
  }

  function SaturatingSub(a: nat, b: nat): nat {
    if a < b then 0 else a - b
  }

  // The steps of a request.

  /** What becomes of a request: it goes on, or it is answered. */
  datatype Next = Go(phase: Phase) | Answer(reply: Reply)

  /** What a step of a request does to the entry of its session and to itself. */
  datatype Change = Change(entry: Entry, next: Next)

  function Removed(entry: Entry): Entry {
    entry.(session := None)
  }

  function DoCheckExpiry(now: nat, e: Entry, phase: Phase): Option<Change> {
    if !phase.Looked? then None
    else Some(Change(e, Go(if Expired(phase.session, now) then Expiring else Unexpired(phase.session))))
  }

  /** The expired session leaves the table and the request is answered. */
  function DoRemoveExpired(e: Entry, phase: Phase): Option<Change> {
    if phase.Expiring? then Some(Change(Removed(e), Answer(NoSession))) else None
  }

  function DoReadInterval(auth: Auth, e: Entry, phase: Phase): Option<Change> {
    if phase.Unexpired? then Some(Change(e, Go(Timed(phase.session, auth.config.interval)))) else None
  }

  function DoCheckAge(now: nat, e: Entry, phase: Phase): Option<Change> {
    if !phase.Timed? then None
    else if phase.session.oidc && SaturatingSub(now, phase.session.checkedAt) >= phase.interval then
      Some(Change(e, Go(Waiting)))
    else Some(Change(e, Go(Final)))
  }

  function DoTakeLock(q: nat, e: Entry, phase: Phase): Option<Change> {
    if phase.Waiting? && e.lock.None? then Some(Change(e.(lock := Some(q)), Go(Holding))) else None
  }

  function DoReread(e: Entry, phase: Phase): Option<Change> {
    if !phase.Holding? then None
    else if e.session.None? then Some(Change(e, Go(Leaving(false))))
    else Some(Change(e, Go(Current(e.session.value))))
  }

  /** Under the lock an expired session is removed like a revoked one. */
  function DoCheckExpiryAgain(now: nat, e: Entry, phase: Phase): Option<Change> {
    if !phase.Current? then None
    else Some(Change(e, Go(if Expired(phase.session, now) then Revoking else CurrentUnexpired(phase.session))))
  }

  function DoReadIntervalAgain(auth: Auth, e: Entry, phase: Phase): Option<Change> {
    if phase.CurrentUnexpired? then Some(Change(e, Go(CurrentTimed(phase.session, auth.config.interval)))) else None
  }

  function DoCheckAgeAgain(now: nat, e: Entry, phase: Phase): Option<Change> {
    if !phase.CurrentTimed? then None
    else if SaturatingSub(now, phase.session.checkedAt) < phase.interval then Some(Change(e, Go(Leaving(false))))
    else Some(Change(e, Go(Due(phase.session))))
  }

  /** Without a refresh token the session is revoked; otherwise the generation is read. */
  function DoBeginRefresh(auth: Auth, e: Entry, phase: Phase): Option<Change> {
    if !phase.Due? then None
    else if phase.session.refresh.None? then Some(Change(e, Go(Revoking)))
    else if auth.reload.Idle? then Some(Change(e, Go(Began(phase.session, auth.generation))))
    else None
  }

  function DoReadConfig(auth: Auth, e: Entry, phase: Phase): Option<Change> {
    if phase.Began? then Some(Change(e, Go(Configured(phase.session, phase.generation, auth.config)))) else None
  }

  /** The request with the refresh token is sent. */
  function DoPresent(e: Entry, phase: Phase): Option<Change> {
    if phase.Configured? then Some(Change(e, Go(Presented(phase.session, phase.generation, phase.config)))) else None
  }

  function DoReceive(e: Entry, phase: Phase, response: Response): Option<Change> {
    if !phase.Presented? then None
    else
      match response
      case InvalidGrant => Some(Change(e, Go(Revoking)))
      case Unusable => Some(Change(e, Go(Leaving(true))))
      case NoAccess(refresh) =>
        // The new refresh token, if there is one, is dropped.
        var receipts := if refresh.Some? then e.receipts + [Receipt(refresh.value, false)] else e.receipts;
        Some(Change(e.(receipts := receipts), Go(Leaving(true))))
      case Tokens(refresh) =>
        if refresh.None? then Some(Change(e, Go(Saved(phase.session, phase.generation, phase.config))))
        else
          var rotated := Some(Held(refresh.value, |e.receipts|));
          Some(Change(e.(receipts := e.receipts + [Receipt(refresh.value, true)]),
                      Go(Answered(phase.session, phase.generation, phase.config, rotated))))
  }

  /** Under the gate: the rotated token is saved, unless the configuration changed. */
  function DoSaveToken(auth: Auth, e: Entry, phase: Phase): Option<Change> {
    if !phase.Answered? || !auth.reload.Idle? then None
    else if auth.generation != phase.generation then Some(Change(e, Go(Revoking)))
    else
      var session :=
        if e.session.Some? && e.session.value.refresh.Some? then Some(e.session.value.(refresh := phase.rotated))
        else e.session;
      Some(Change(e.(session := session), Go(Saved(phase.session, phase.generation, phase.config))))
  }

  function DoReadUserInfo(e: Entry, phase: Phase, user: UserInfo): Option<Change> {
    if !phase.Saved? then None
    else if user.NoUser? then Some(Change(e, Go(Leaving(true))))
    else if user.subject != Some(phase.session.subject) then Some(Change(e, Go(Revoking)))
    else Some(Change(e, Go(Informed(phase.session, phase.generation, phase.config, user.groups))))
  }

  /** Under the gate: the rights are written, unless the configuration changed. */
  function DoWriteRights(now: nat, auth: Auth, e: Entry, phase: Phase): Option<Change> {
    if !phase.Informed? || !auth.reload.Idle? then None
    else if auth.generation != phase.generation || e.session.None? || Expired(e.session.value, now) then
      Some(Change(e, Go(Revoking)))
    else
      var session := e.session.value.(rights := OidcPermissions(phase.config, phase.groups), checkedAt := now);
      Some(Change(e.(session := Some(session), groups := phase.groups), Go(Leaving(false))))
  }

  /** The provider cannot be reached, or a file cannot be read. */
  function DoFail(e: Entry, phase: Phase): Option<Change> {
    if phase.Due? || phase.Configured? || phase.Presented? || phase.Saved? then Some(Change(e, Go(Leaving(true))))
    else None
  }

  function DoRevoke(e: Entry, phase: Phase): Option<Change> {
    if phase.Revoking? then Some(Change(Removed(e), Go(Leaving(false)))) else None
  }

  function DoRelease(e: Entry, phase: Phase): Option<Change> {
    if phase.Leaving? then Some(Change(e.(lock := None), if phase.failed then Answer(Unavailable) else Go(Final)))
    else None
  }

  /**
   The last look and its expiry check. The check may come later than the look; but a session
   that is unexpired then was so at the look, and one that is expired then is removed after it.
   */
  function DoFinish(now: nat, e: Entry, phase: Phase): Option<Change> {
    if !phase.Final? then None
    else if e.session.None? then Some(Change(e, Answer(NoSession)))
    else if Expired(e.session.value, now) then Some(Change(e, Go(Expiring)))
    else Some(Change(e, Answer(Granted(e.session.value))))
  }

  /** The steps of a request that is under way. */
  function ChangeOf(now: nat, auth: Auth, e: Entry, phase: Phase, q: nat, step: Step): Option<Change> {
    match step
    case CheckExpiry(_) => DoCheckExpiry(now, e, phase)
    case RemoveExpired(_) => DoRemoveExpired(e, phase)
    case ReadInterval(_) => DoReadInterval(auth, e, phase)
    case CheckAge(_) => DoCheckAge(now, e, phase)
    case TakeLock(_) => DoTakeLock(q, e, phase)
    case Reread(_) => DoReread(e, phase)
    case CheckExpiryAgain(_) => DoCheckExpiryAgain(now, e, phase)
    case ReadIntervalAgain(_) => DoReadIntervalAgain(auth, e, phase)
    case CheckAgeAgain(_) => DoCheckAgeAgain(now, e, phase)
    case BeginRefresh(_) => DoBeginRefresh(auth, e, phase)
    case ReadConfig(_) => DoReadConfig(auth, e, phase)
    case Present(_) => DoPresent(e, phase)
    case Receive(_, response) => DoReceive(e, phase, response)
    case SaveToken(_) => DoSaveToken(auth, e, phase)
    case ReadUserInfo(_, user) => DoReadUserInfo(e, phase, user)
    case WriteRights(_) => DoWriteRights(now, auth, e, phase)
    case Fail(_) => DoFail(e, phase)
    case Revoke(_) => DoRevoke(e, phase)
    case Release(_) => DoRelease(e, phase)
    case Finish(_) => DoFinish(now, e, phase)
    case _ => None
  }

  /** The change that a step makes for the request `q`, if it is enabled. */
  function RequestChange(s: State, q: nat, step: Step): Option<Change> {
    if q in s.requests && s.requests[q].id in s.table then
      ChangeOf(s.now, s.auth, s.table[s.requests[q].id], s.requests[q].phase, q, step)
    else None
  }

  function Act(s: State, q: nat, c: Change): State
    requires q in s.requests
  {
    var r := s.requests[q];
    s.(table := s.table[r.id := c.entry],
       requests := match c.next
                   case Go(phase) => s.requests[q := r.(phase := phase)]
                   case Answer(_) => s.requests - {q})
  }

  function DoAct(s: State, q: nat, step: Step): Option<State> {
    var c :- RequestChange(s, q, step);
    Some(Act(s, q, c))
  }

  /** The session is copied from the table; without one the request is answered at once. */
  function DoStartRequest(s: State, q: nat, id: Id): Option<State> {
    if q in s.requests then None
    else if id in s.table && s.table[id].session.Some? then
      Some(s.(requests := s.requests[q := Request(id, s.now, |s.auth.configs|, Looked(s.table[id].session.value))]))
    else Some(s)
  }

  // Reloads.

  /** `apply_reload` takes the gate. A change that needs a restart is refused. */
  function DoSwapConfig(s: State, next: Config): Option<State> {
    if !s.auth.reload.Idle? || next.interval == 0 then None
    else if next.fixed != s.auth.config.fixed then Some(s)
    else Some(s.(auth := Auth(next, s.auth.generation, Swapped(s.auth.config), s.auth.configs + [next])))
  }

  function DoBumpGeneration(s: State): Option<State> {
    if !s.auth.reload.Swapped? then None
    else Some(s.(auth := s.auth.(generation := s.auth.generation + 1, reload := Bumped(s.auth.reload.before))))
  }

  function Without(table: map<Id, Entry>, removed: set<Id>): map<Id, Entry> {
    map id | id in table :: if id in removed then Removed(table[id]) else table[id]
  }

  function DoClearSessions(s: State): Option<State> {
    if !s.auth.reload.Bumped? then None
    else Some(s.(auth := s.auth.(reload := Idle), table := Without(s.table, s.table.Keys)))
  }

  // Logins.

  function DoBeginLogin(s: State, l: nat, oidc: bool): Option<State> {
    if l in s.logins || !s.auth.reload.Idle? then None
    else Some(s.(logins := s.logins[l := Login(oidc, s.auth.generation, LoginBegun)]))
  }

  function DoReadLoginConfig(s: State, l: nat): Option<State> {
    if l in s.logins && s.logins[l].phase.LoginBegun? then
      Some(s.(logins := s.logins[l := s.logins[l].(phase := LoginConfigured(s.auth.config))]))
    else None
  }

  /** The session that a successful login prepares. */
  function LoginSession(config: Config, oidc: bool, now: nat, groups: set<string>, subject: string,
                        token: Option<string>): Session {
    if oidc then
      Session(true, OidcPermissions(config, groups), now + config.ttl,
              if token.Some? then Some(Held(token.value, 0)) else None, subject, now)
    else Session(false, LocalRights(config), now + config.ttl, None, "", 0)
  }

  /** The password is right, or the provider's tokens and user are. */
  function DoCheckLogin(s: State, l: nat, groups: set<string>, subject: string, token: Option<string>): Option<State> {
    if l !in s.logins || !s.logins[l].phase.LoginConfigured? then None
    else
      var login, config := s.logins[l], s.logins[l].phase.config;
      if !(if login.oidc then config.oidcEnabled else config.localEnabled) then None
      else
        var receipts := if login.oidc && token.Some? then [Receipt(token.value, true)] else [];
        var session := LoginSession(config, login.oidc, s.now, groups, subject, token);
        Some(s.(logins := s.logins[l := login.(phase := LoginReady(config, session, receipts, groups))]))
  }

  /** `remember_session_if_current`: under the gate, and others may have to leave the table. */
  function DoRememberSession(s: State, l: nat, id: Id, evicted: set<Id>): Option<State> {
    if l !in s.logins || !s.logins[l].phase.LoginReady? || !s.auth.reload.Idle? || id in s.table then None
    else if s.logins[l].generation != s.auth.generation then Some(s.(logins := s.logins - {l}))
    else
      var phase := s.logins[l].phase;
      Some(s.(logins := s.logins - {l},
              table := Without(s.table, evicted)[id := Entry(Some(phase.session), None, phase.receipts, phase.groups)]))
  }

  function Apply(s: State, step: Step): Option<State> {
    match step
    case Tick(seconds) => Some(s.(now := s.now + seconds))
    case SwapConfig(next) => DoSwapConfig(s, next)
    case BumpGeneration => DoBumpGeneration(s)
    case ClearSessions => DoClearSessions(s)
    case BeginLogin(l, oidc) => DoBeginLogin(s, l, oidc)
    case ReadLoginConfig(l) => DoReadLoginConfig(s, l)
    case CheckLogin(l, groups, subject, token) => DoCheckLogin(s, l, groups, subject, token)
    case RememberSession(l, id, evicted) => DoRememberSession(s, l, id, evicted)
    case AbandonLogin(l) => Some(s.(logins := s.logins - {l}))
    case Logout(id) => Some(s.(table := Without(s.table, {id})))
    case StartRequest(q, id) => DoStartRequest(s, q, id)
    case _ => DoAct(s, step.q, step)
  }

  /** A run: any number of steps, each enabled when it is taken. */
  function Run(s: State, steps: seq<Step>): Option<State> {
    if steps == [] then Some(s)
    else
      var before :- Run(s, steps[..|steps| - 1]);
      Apply(before, steps[|steps| - 1])
  }
}
