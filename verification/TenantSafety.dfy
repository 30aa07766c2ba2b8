// Tenant safety from session to connection: handlers, requests and the connection pool interleaved.
module TenantSafety {
  import opened Wrappers
  import opened Schema
  import opened TenantContext
  import opened Sessions
  import P = Pool
  import M = Memberships

  // A handler between its steps; `listed` is what ListMemberships returned to it.
  datatype Call =
    | LoginCall(key: string, who: Identified, viaOidc: bool, listed: Option<seq<Uuid>>)
    | SelectCall(key: string, claims: Claims, tenant: Uuid, listed: Option<seq<Uuid>>)

  // A request the middleware let through: the claims it found and the context it derived.
  datatype Request = Request(claims: Claims, ctx: Context)

  // `holders` names the claims under whose context a leased connection was acquired, if under one.
  datatype State = State(
    memberships: set<(Uuid, Uuid)>, sessions: map<string, Claims>,
    calls: map<nat, Call>, requests: map<nat, Request>, pool: P.State, holders: map<P.ConnId, Claims>)

  datatype Event =
    | Join(user: Uuid, tenant: Uuid)
    | StartLogin(call: nat, key: string, who: Identified, viaOidc: bool)
    | StartSelect(call: nat, key: string, tenant: Uuid)
    | ListMemberships(call: nat, tenants: seq<Uuid>)
    | Finish(call: nat)
    | Drop(call: nat)
    | Logout(key: string)
    | StartRequest(request: nat, key: string, base: Context, path: string, allowed: seq<string>)
    | AcquireFor(request: nat, conn: P.ConnId, fails: bool)
    | PoolEvent(event: P.Event)

  function UserOf(c: Call): Uuid { if c.LoginCall? then c.who.user else c.claims.user }

  ghost predicate Lists(s: State, user: Uuid, tenants: seq<Uuid>) {
    && (forall t: Uuid :: t in tenants <==> (user, t) in s.memberships)
    && (forall i, j | 0 <= i < j < |tenants| :: tenants[i] != tenants[j])
  }

  ghost predicate Enabled(s: State, e: Event) {
    match e
    case Join(_, _) => true
    case StartLogin(call, _, _, _) => call !in s.calls
    case StartSelect(call, key, _) => call !in s.calls && SessionClaims(s.sessions, key).Some?
    case ListMemberships(call, tenants) =>
      call in s.calls && s.calls[call].listed.None? && Lists(s, UserOf(s.calls[call]), tenants)
    case Finish(call) => call in s.calls && s.calls[call].listed.Some?
    case Drop(call) => call in s.calls
    case Logout(_) => true
    case StartRequest(request, key, base, path, allowed) =>
      request !in s.requests && RequireAuthenticated(base, SessionClaims(s.sessions, key), path, allowed).Next?
    case AcquireFor(request, conn, fails) =>
      request in s.requests && P.Enabled(s.pool, P.Acquire(conn, s.requests[request].ctx, fails))
    case PoolEvent(event) => P.Enabled(s.pool, event)
  }

  // What the last step of a handler does to the sessions.
  function FinishSessions(sessions: map<string, Claims>, c: Call): map<string, Claims>
    requires c.listed.Some?
  {
    match c
    case LoginCall(key, who, viaOidc, Some(tenants)) =>
      if viaOidc then AfterCallback(sessions, key, who, tenants) else sessions[key := LoginClaims(who, tenants)]
    case SelectCall(key, claims, tenant, Some(tenants)) =>
      AfterSelect(sessions, key, claims, tenant, tenants)
  }

  ghost function Do(s: State, e: Event): State
    requires Enabled(s, e)
  {
    match e
    case Join(user, tenant) => s.(memberships := s.memberships + {(user, tenant)})
    case StartLogin(call, key, who, viaOidc) => s.(calls := s.calls[call := LoginCall(key, who, viaOidc, None)])
    case StartSelect(call, key, tenant) => s.(calls := s.calls[call := SelectCall(key, s.sessions[key], tenant, None)])
    case ListMemberships(call, tenants) => s.(calls := s.calls[call := s.calls[call].(listed := Some(tenants))])
    case Finish(call) => s.(sessions := FinishSessions(s.sessions, s.calls[call]), calls := s.calls - {call})
    case Drop(call) => s.(calls := s.calls - {call})
    case Logout(key) => s.(sessions := s.sessions - {key})
    case StartRequest(request, key, base, path, allowed) =>
      var claims := SessionClaims(s.sessions, key);
      var ctx := RequireAuthenticated(base, claims, path, allowed).ctx;
      s.(requests := s.requests[request := Request(claims.value, ctx)])
    case AcquireFor(request, conn, fails) =>
      var pool := P.Do(s.pool, P.Acquire(conn, s.requests[request].ctx, fails));
      s.(pool := pool,
         holders := if conn in pool.leases then s.holders[conn := s.requests[request].claims] else s.holders - {conn})
    case PoolEvent(event) =>
      s.(pool := P.Do(s.pool, event),
         holders := if event.Acquire? || event.Release? || event.Close? then s.holders - {event.conn} else s.holders)
  }

  ghost predicate Reaches(s: State, es: seq<Event>, s': State)
    decreases |es|
  {
    if es == [] then s == s' else Enabled(s, es[0]) && Reaches(Do(s, es[0]), es[1..], s')
  }

  // ----- what every reachable state keeps -----

  ghost predicate Safe(memberships: set<(Uuid, Uuid)>, c: Claims) {
    c.active.Some? ==> (c.user, c.active.value) in memberships
  }

  ghost predicate CallSafe(memberships: set<(Uuid, Uuid)>, c: Call) {
    && (c.SelectCall? ==> Safe(memberships, c.claims) && c.claims.authenticated)
    && (c.listed.Some? ==> forall t | t in c.listed.value :: (UserOf(c), t) in memberships)
  }

  ghost predicate RequestSafe(memberships: set<(Uuid, Uuid)>, r: Request) {
    && Safe(memberships, r.claims)
    && (r.claims.active.Some? ==> TenantIDString(r.ctx) == Some(UuidText(r.claims.active.value)))
  }

  // A connection held under claims with an active tenant was handed out with exactly that tenant if
  // set_tenant resolved on it then.
  ghost predicate HolderSafe(s: State, conn: P.ConnId) {
    && conn in s.holders && Safe(s.memberships, s.holders[conn]) && conn in s.pool.leases
    && (s.holders[conn].active.Some? && s.pool.leases[conn].resolved ==>
          s.pool.leases[conn].start == UuidText(s.holders[conn].active.value))
  }

  ghost predicate Invariant(s: State) {
    && (forall key | key in s.sessions :: Safe(s.memberships, s.sessions[key]) && s.sessions[key].authenticated)
    && (forall call | call in s.calls :: CallSafe(s.memberships, s.calls[call]))
    && (forall request | request in s.requests :: RequestSafe(s.memberships, s.requests[request]))
    && (forall conn | conn in s.holders :: HolderSafe(s, conn))
  }

  lemma FinishIsSafe(s: State, call: nat)
    requires Invariant(s) && Enabled(s, Finish(call))
    ensures var sessions := FinishSessions(s.sessions, s.calls[call]);
      forall key | key in sessions :: Safe(s.memberships, sessions[key]) && sessions[key].authenticated
  {
    var c := s.calls[call];
    assert CallSafe(s.memberships, c);
    if c.LoginCall? {
      if |c.listed.value| == 1 { assert c.listed.value[0] in c.listed.value; }
      assert Safe(s.memberships, LoginClaims(c.who, c.listed.value));
    }
  }

  lemma RequestIsSafe(s: State, e: Event)
    requires Invariant(s) && e.StartRequest? && Enabled(s, e)
    ensures RequestSafe(s.memberships, Do(s, e).requests[e.request])
  {
    var claims := SessionClaims(s.sessions, e.key);
    assert Safe(s.memberships, s.sessions[e.key]);
    if claims.value.active.Some? {
      TenantReadsBack(e.base, claims.value.active.value);
    }
  }

  // A request with an active tenant wants exactly that tenant on its connection.
  lemma RequestWants(memberships: set<(Uuid, Uuid)>, r: Request)
    requires RequestSafe(memberships, r) && r.claims.active.Some?
    ensures P.Wanted(r.ctx) == Some(UuidText(r.claims.active.value)) && UuidText(r.claims.active.value) != ""
  {
    TenantReadsBack(r.ctx, r.claims.active.value);
  }

  lemma AcquireIsSafe(s: State, e: Event)
    requires Invariant(s) && e.AcquireFor? && Enabled(s, e)
    ensures e.conn in Do(s, e).holders ==> HolderSafe(Do(s, e), e.conn)
  {
    var r := s.requests[e.request];
    assert RequestSafe(s.memberships, r);
    if r.claims.active.Some? { RequestWants(s.memberships, r); }
  }

  lemma HandlerKeepsInvariant(s: State, e: Event)
    requires Invariant(s) && Enabled(s, e) && !e.AcquireFor? && !e.PoolEvent?
    ensures Invariant(Do(s, e))
  {
    var s' := Do(s, e);
    if e.Finish? { FinishIsSafe(s, e.call); }
    if e.StartRequest? { RequestIsSafe(s, e); }
    forall conn | conn in s'.holders ensures HolderSafe(s', conn) {
      assert HolderSafe(s, conn);
    }
    forall call | call in s'.calls ensures CallSafe(s'.memberships, s'.calls[call]) {
      if call in s.calls { assert CallSafe(s.memberships, s.calls[call]); }
    }
    forall request | request in s'.requests ensures RequestSafe(s'.memberships, s'.requests[request]) {
      if request in s.requests { assert RequestSafe(s.memberships, s.requests[request]); }
    }
  }

  lemma PoolKeepsInvariant(s: State, e: Event)
    requires Invariant(s) && Enabled(s, e) && (e.AcquireFor? || e.PoolEvent?)
    ensures Invariant(Do(s, e))
  {
    var s' := Do(s, e);
    forall conn | conn in s'.holders ensures HolderSafe(s', conn) {
      if e.AcquireFor? && conn == e.conn {
        AcquireIsSafe(s, e);
      } else {
        assert HolderSafe(s, conn);
      }
    }
  }

  lemma EventKeepsInvariant(s: State, e: Event)
    requires Invariant(s) && Enabled(s, e)
    ensures Invariant(Do(s, e))
  {
    if e.AcquireFor? || e.PoolEvent? { PoolKeepsInvariant(s, e); } else { HandlerKeepsInvariant(s, e); }
  }

  lemma {:induction false} EventsKeepInvariant(s: State, es: seq<Event>, s': State)
    requires Invariant(s) && Reaches(s, es, s')
    ensures Invariant(s')
    decreases |es|
  {
    if es != [] {
      EventKeepsInvariant(s, es[0]);
      EventsKeepInvariant(Do(s, es[0]), es[1..], s');
    }
  }

  function Start(memberships: set<(Uuid, Uuid)>): State {
    State(memberships, map[], map[], map[], P.START, map[])
  }

  // In every reachable state, handlers interleaved as they may, a session's active tenant is a
  // membership of the session's user.
  lemma SessionTenantIsMembership(ms: set<(Uuid, Uuid)>, es: seq<Event>, s: State, key: string)
    requires Reaches(Start(ms), es, s) && key in s.sessions && s.sessions[key].active.Some?
    ensures (s.sessions[key].user, s.sessions[key].active.value) in s.memberships
  {
    EventsKeepInvariant(Start(ms), es, s);
    assert Safe(s.memberships, s.sessions[key]);
  }

  // And a connection acquired for a request of a session with an active tenant, set_tenant resolving on it,
  // was handed out with the text of exactly one tenant, that one, of which the session's user is a member.
  lemma ConnectionCarriesSessionTenant(ms: set<(Uuid, Uuid)>, es: seq<Event>, s: State, conn: P.ConnId)
    requires Reaches(Start(ms), es, s) && conn in s.holders && s.holders[conn].active.Some?
    ensures conn in s.pool.leases
    ensures var lease, tenant := s.pool.leases[conn], s.holders[conn].active.value;
      lease.resolved ==>
        && lease.start == UuidText(tenant) && (s.holders[conn].user, tenant) in s.memberships
        && forall other: Uuid :: lease.start == UuidText(other) ==> other == tenant
  {
    EventsKeepInvariant(Start(ms), es, s);
    assert HolderSafe(s, conn);
    var tenant := s.holders[conn].active.value;
    forall other: Uuid | UuidText(other) == UuidText(tenant) ensures other == tenant {
      TextInjective(other, tenant);
    }
  }

  // ----- what logins, selections and logouts lead to -----

  // What the middleware answers, in every reachable state: without a session it refuses; without an active
  // tenant it lets only the allowed paths through, and with one it puts exactly that tenant into the context.
  lemma MiddlewareExactly(ms: set<(Uuid, Uuid)>, es: seq<Event>, s: State, key: string, base: Context, path: string,
                          allowed: seq<string>)
    requires Reaches(Start(ms), es, s)
    ensures var verdict := RequireAuthenticated(base, SessionClaims(s.sessions, key), path, allowed);
      if key !in s.sessions then verdict == NotAuthenticated
      else match s.sessions[key].active
        case None => verdict == if Optional(path, allowed) then Next(base) else TenantRequired
        case Some(tenant) =>
          && verdict.Next? && verdict.ctx.tenant == Some(UuidText(tenant))
          && P.Wanted(verdict.ctx) == Some(UuidText(tenant))
  {
    EventsKeepInvariant(Start(ms), es, s);
    OptionalExactly(path, allowed);
    if key in s.sessions && s.sessions[key].active.Some? {
      TenantReadsBack(base, s.sessions[key].active.value);
    }
  }

  // A selection of a listed tenant takes effect: requests of that session get through and want that tenant.
  // One of another changes nothing.
  lemma SelectionTakesEffect(ms: set<(Uuid, Uuid)>, es: seq<Event>, s: State, call: nat, base: Context, path: string,
                             allowed: seq<string>)
    requires Reaches(Start(ms), es, s) && Enabled(s, Finish(call)) && s.calls[call].SelectCall?
    ensures var c, s' := s.calls[call], Do(s, Finish(call));
      var verdict := RequireAuthenticated(base, SessionClaims(s'.sessions, c.key), path, allowed);
      if c.tenant in c.listed.value then
        && OnlyAt(s.sessions, s'.sessions, c.key) && s'.sessions[c.key] == c.claims.(active := Some(c.tenant))
        && verdict.Next? && P.Wanted(verdict.ctx) == Some(UuidText(c.tenant))
      else s'.sessions == s.sessions
  {
    EventsKeepInvariant(Start(ms), es, s);
    assert CallSafe(s.memberships, s.calls[call]);
    TenantReadsBack(base, s.calls[call].tenant);
  }

  // A login starts a session of the user with the only tenant active; with several, or with none after a password
  // login, no tenant is, and after an OIDC login with none there is no new session.
  lemma LoginTakesEffect(s: State, call: nat)
    requires Enabled(s, Finish(call)) && s.calls[call].LoginCall?
    ensures var c, s' := s.calls[call], Do(s, Finish(call));
      if c.viaOidc && c.listed.value == [] then s'.sessions == s.sessions
      else StartsSession(s.sessions, s'.sessions, c.key, c.who, c.listed.value)
  {}

  // What a listing of the tables shows is what the handlers are assumed to read here.
  lemma ListingIsRead(s: State, rows: seq<Membership>, tenants: seq<Tenant>, user: Uuid)
    requires M.UniqueKeys(rows) && forall i | 0 <= i < |rows| :: HasTenant(tenants, rows[i].tenant)
    requires forall u, t :: (u, t) in s.memberships <==> exists m :: m in rows && m.user == u && m.tenant == t
    ensures Lists(s, user, M.TenantsOf(MembershipsOf(rows, tenants, user)))
  {
    M.TenantsExactly(rows, tenants, user);
  }

  // ----- where set_tenant does not resolve, exactly -----

  // The connection starts with the session's tenant, or with none where set_tenant did not resolve.
  ghost predicate HolderExact(s: State, conn: P.ConnId) {
    conn in s.holders && conn in s.pool.leases && s.holders[conn].active.Some? ==>
      s.pool.leases[conn].start ==
        if s.pool.leases[conn].resolved then UuidText(s.holders[conn].active.value) else ""
  }

  ghost predicate Exact(s: State) { forall conn | conn in s.holders :: HolderExact(s, conn) }

  function AcquisitionOf(s: State, e: Event): P.Event
    requires e.AcquireFor? && e.request in s.requests
  {
    P.Acquire(e.conn, s.requests[e.request].ctx, e.fails)
  }

  // A connection that still carries a tenant is acquired for a session with an active tenant.
  predicate StaleFor(s: State, e: Event) {
    && e.AcquireFor? && e.request in s.requests && s.requests[e.request].claims.active.Some?
    && P.StaleAcquire(s.pool, AcquisitionOf(s, e))
  }

  lemma AcquireExactly(s: State, e: Event)
    requires Invariant(s) && e.AcquireFor? && Enabled(s, e)
    ensures HolderExact(Do(s, e), e.conn) <==> !StaleFor(s, e)
  {
    var r := s.requests[e.request];
    assert RequestSafe(s.memberships, r);
    if r.claims.active.Some? { RequestWants(s.memberships, r); }
  }

  lemma StepExactly(s: State, e: Event)
    requires Invariant(s) && Exact(s) && Enabled(s, e)
    ensures Exact(Do(s, e)) <==> !StaleFor(s, e)
  {
    var s' := Do(s, e);
    forall conn | conn in s'.holders && !(e.AcquireFor? && conn == e.conn) ensures HolderExact(s', conn) {
      assert HolderSafe(s, conn) && HolderExact(s, conn);
    }
    if e.AcquireFor? { AcquireExactly(s, e); }
  }

  ghost predicate AlwaysExact(s: State, es: seq<Event>)
    decreases |es|
  {
    Exact(s) && (es != [] && Enabled(s, es[0]) ==> AlwaysExact(Do(s, es[0]), es[1..]))
  }

  ghost predicate SomeStaleFor(s: State, es: seq<Event>)
    decreases |es|
  {
    es != [] && Enabled(s, es[0]) && (StaleFor(s, es[0]) || SomeStaleFor(Do(s, es[0]), es[1..]))
  }

  // Over every run, each session's connections start with its own tenant or none exactly when no
  // connection that still carried a tenant was acquired for one.
  lemma {:induction false} HeldExactly(s: State, es: seq<Event>)
    requires Invariant(s) && Exact(s)
    ensures AlwaysExact(s, es) <==> !SomeStaleFor(s, es)
    decreases |es|
  {
    if es != [] && Enabled(s, es[0]) {
      StepExactly(s, es[0]);
      EventKeepsInvariant(s, es[0]);
      if !StaleFor(s, es[0]) { HeldExactly(Do(s, es[0]), es[1..]); }
    }
  }

  // The pool's condition, among the events of a run.
  ghost predicate SomeDirtyRelease(s: State, es: seq<Event>)
    decreases |es|
  {
    && es != [] && Enabled(s, es[0])
    && ((es[0].PoolEvent? && P.DirtyRelease(s.pool, es[0].event)) || SomeDirtyRelease(Do(s, es[0]), es[1..]))
  }

  lemma {:induction false} StaleNeedsDirty(s: State, es: seq<Event>)
    requires P.IdleClean(s.pool) && SomeStaleFor(s, es)
    ensures SomeDirtyRelease(s, es)
    decreases |es|
  {
    if !(es[0].PoolEvent? && P.DirtyRelease(s.pool, es[0].event)) {
      if es[0].PoolEvent? { P.IdleCleanExactly(s.pool, es[0].event); }
      if es[0].AcquireFor? { P.IdleCleanExactly(s.pool, AcquisitionOf(s, es[0])); }
      StaleNeedsDirty(Do(s, es[0]), es[1..]);
    }
  }

  // So from the start it is enough that no lessee releases a connection with a tenant that set_tenant
  // does not reach.
  lemma CleanRunsAreExact(ms: set<(Uuid, Uuid)>, es: seq<Event>)
    requires !SomeDirtyRelease(Start(ms), es)
    ensures AlwaysExact(Start(ms), es)
  {
    if SomeStaleFor(Start(ms), es) { StaleNeedsDirty(Start(ms), es); }
    HeldExactly(Start(ms), es);
  }
}
