// db/db.go: the hooks setupMultitenancy puts on the connection pool. A connection carries its
// app.current_tenant setting; a hook that returns false destroys the connection, as pgx does.
module Pool {
  import opened Wrappers
  import opened Schema
  import opened TenantContext

  type ConnId = nat

  // A connection: its app.current_tenant and whether its search_path reaches the schema of set_tenant.
  datatype Conn = Conn(setting: string, reaches: bool)

  // A connection in use: the context it was acquired under, its setting when it was handed out, and
  // whether set_tenant resolved on it then.
  datatype Lease = Lease(ctx: Context, start: string, resolved: bool)

  // `defined` says whether the function set_tenant exists.
  datatype State = State(defined: bool, conns: map<ConnId, Conn>, leases: map<ConnId, Lease>)

  // Migrations define and drop set_tenant; whoever holds a lease calls it, sets the setting directly or
  // changes the search_path, none of which ends with the lease.
  datatype Event =
    | Open(conn: ConnId, reaches: bool)
    | Close(conn: ConnId)
    | DefineSetTenant(defined: bool)
    | Acquire(conn: ConnId, ctx: Context, fails: bool)
    | CallSetTenant(conn: ConnId, value: string)
    | SetDirectly(conn: ConnId, value: string)
    | SetSearchPath(conn: ConnId, reaches: bool)
    | Release(conn: ConnId, fails: bool)

  predicate Idle(s: State, conn: ConnId) { conn in s.conns && conn !in s.leases }

  predicate Leased(s: State, conn: ConnId) { conn in s.conns && conn in s.leases }

  predicate Enabled(s: State, e: Event) {
    match e
    case Open(conn, _) => conn !in s.conns && conn !in s.leases
    case Close(conn) => conn in s.conns
    case DefineSetTenant(_) => true
    case Acquire(conn, _, _) => Idle(s, conn)
    case CallSetTenant(conn, _) => Leased(s, conn)
    case SetDirectly(conn, _) => Leased(s, conn)
    case SetSearchPath(conn, _) => Leased(s, conn)
    case Release(conn, _) => Leased(s, conn)
  }

  // The unqualified name set_tenant finds the function on this connection.
  predicate Resolves(s: State, conn: ConnId)
    requires conn in s.conns
  {
    s.defined && s.conns[conn].reaches
  }

  // The tenant a hook sets for a context: none for a missing or empty tenant and for the system tenant.
  function Wanted(ctx: Context): Option<string> {
    match TenantIDString(ctx)
    case None => None
    case Some(t) => if t == SYSTEM_TENANT then None else Some(t)
  }

  // What BeforeAcquire leaves the setting at, or None if it destroys the connection.
  function OnAcquire(s: State, conn: ConnId, ctx: Context, fails: bool): Option<string>
    requires conn in s.conns
  {
    match Wanted(ctx)
    case None => Some(s.conns[conn].setting)
    case Some(t) => if fails then None else Some(if Resolves(s, conn) then t else s.conns[conn].setting)
  }

  function OnRelease(s: State, conn: ConnId, fails: bool): Option<string>
    requires conn in s.conns
  {
    if fails then None else Some(if Resolves(s, conn) then "" else s.conns[conn].setting)
  }

  function Put(s: State, conn: ConnId, setting: string): State
    requires conn in s.conns
  {
    s.(conns := s.conns[conn := s.conns[conn].(setting := setting)])
  }

  function Remove(s: State, conn: ConnId): State {
    s.(conns := s.conns - {conn}, leases := s.leases - {conn})
  }

  function Do(s: State, e: Event): State
    requires Enabled(s, e)
  {
    match e
    case Open(conn, reaches) => s.(conns := s.conns[conn := Conn("", reaches)])
    case Close(conn) => Remove(s, conn)
    case DefineSetTenant(defined) => s.(defined := defined)
    case Acquire(conn, ctx, fails) =>
      (match OnAcquire(s, conn, ctx, fails)
       case None => Remove(s, conn)
       case Some(v) => Put(s, conn, v).(leases := s.leases[conn := Lease(ctx, v, Resolves(s, conn))]))
    case CallSetTenant(conn, value) => if Resolves(s, conn) then Put(s, conn, value) else s
    case SetDirectly(conn, value) => Put(s, conn, value)
    case SetSearchPath(conn, reaches) => s.(conns := s.conns[conn := s.conns[conn].(reaches := reaches)])
    case Release(conn, fails) =>
      (match OnRelease(s, conn, fails)
       case None => Remove(s, conn)
       case Some(v) => Put(s, conn, v).(leases := s.leases - {conn}))
  }

  ghost predicate Reaches(s: State, es: seq<Event>, s': State)
    decreases |es|
  {
    if es == [] then s == s' else Enabled(s, es[0]) && Reaches(Do(s, es[0]), es[1..], s')
  }

  const START := State(false, map[], map[])

  // ----- the pool as the code drives it -----

  datatype ExecResult = Ran | UndefinedFunction | ExecFailed

  class Pool {
    var defined: bool
    var conns: map<ConnId, Conn>
    var leases: map<ConnId, Lease>

    function Contents(): State
      reads this
    {
      State(defined, conns, leases)
    }

    constructor ()
      ensures Contents() == START
    {
      defined, conns, leases := false, map[], map[];
    }

    // select set_tenant($1)
    method ExecSetTenant(conn: ConnId, value: string, fails: bool) returns (r: ExecResult)
      requires conn in conns
      modifies this`conns
      ensures r == if fails then ExecFailed else if !Resolves(old(Contents()), conn) then UndefinedFunction else Ran
      ensures Contents() == if r.Ran? then Put(old(Contents()), conn, value) else old(Contents())
    {
      if fails { return ExecFailed; }
      if !defined || !conns[conn].reaches { return UndefinedFunction; }
      conns := conns[conn := conns[conn].(setting := value)];
      return Ran;
    }

    method BeforeAcquire(ctx: Context, conn: ConnId, fails: bool) returns (keep: bool)
      requires conn in conns
      modifies this`conns
      ensures match OnAcquire(old(Contents()), conn, ctx, fails)
        case None => !keep && Contents() == old(Contents())
        case Some(v) => keep && Contents() == Put(old(Contents()), conn, v)
    {
      assert conns == conns[conn := conns[conn].(setting := conns[conn].setting)];
      var tenant := TenantIDString(ctx);
      if tenant.None? { return true; }
      if tenant.value == SYSTEM_TENANT { return true; }
      var r := ExecSetTenant(conn, tenant.value, fails);
      return !r.ExecFailed?;
    }

    method AfterRelease(conn: ConnId, fails: bool) returns (keep: bool)
      requires conn in conns
      modifies this`conns
      ensures match OnRelease(old(Contents()), conn, fails)
        case None => !keep && Contents() == old(Contents())
        case Some(v) => keep && Contents() == Put(old(Contents()), conn, v)
    {
      assert conns == conns[conn := conns[conn].(setting := conns[conn].setting)];
      var r := ExecSetTenant(conn, "", fails);
      return !r.ExecFailed?;
    }

    method Acquire(conn: ConnId, ctx: Context, fails: bool) returns (ok: bool)
      requires Idle(Contents(), conn)
      modifies this
      ensures Contents() == Do(old(Contents()), Event.Acquire(conn, ctx, fails))
      ensures ok <==> conn in leases
    {
      var resolved := Resolves(Contents(), conn);
      ok := BeforeAcquire(ctx, conn, fails);
      if ok {
        leases := leases[conn := Lease(ctx, conns[conn].setting, resolved)];
      } else {
        assert leases == leases - {conn};
        conns := conns - {conn};
      }
    }

    method Release(conn: ConnId, fails: bool)
      requires Leased(Contents(), conn)
      modifies this
      ensures Contents() == Do(old(Contents()), Event.Release(conn, fails))
    {
      var keep := AfterRelease(conn, fails);
      leases := leases - {conn};
      if !keep { conns := conns - {conn}; }
    }
  }

  // ----- one step: what breaks isolation, exactly -----

  ghost predicate IdleClean(s: State) {
    forall conn | conn in s.conns && conn !in s.leases :: s.conns[conn].setting == ""
  }

  // A connection is released with a tenant set while set_tenant does not resolve on it.
  predicate DirtyRelease(s: State, e: Event) {
    e.Release? && Enabled(s, e) && !e.fails && !Resolves(s, e.conn) && s.conns[e.conn].setting != ""
  }

  // Idle connections stay clean over any step but a dirty release.
  lemma IdleCleanExactly(s: State, e: Event)
    requires Enabled(s, e) && IdleClean(s)
    ensures IdleClean(Do(s, e)) <==> !DirtyRelease(s, e)
  {
    var s' := Do(s, e);
    if DirtyRelease(s, e) {
      assert s'.conns[e.conn].setting != "" && e.conn !in s'.leases;
    }
  }

  // A lease starts with its own context's tenant where set_tenant resolved, else with none.
  predicate StartsRight(lease: Lease) {
    lease.start == if lease.resolved && Wanted(lease.ctx).Some? then Wanted(lease.ctx).value else ""
  }

  ghost predicate LeasesRight(s: State) {
    forall conn | conn in s.leases :: StartsRight(s.leases[conn])
  }

  // A connection that carries a tenant is handed out and nothing replaces that tenant: the context wants
  // none, or set_tenant does not resolve.
  predicate StaleAcquire(s: State, e: Event) {
    && e.Acquire? && Enabled(s, e) && s.conns[e.conn].setting != ""
    && (Wanted(e.ctx).Some? ==> !e.fails && !Resolves(s, e.conn))
  }

  // Leases stay right over any step but a stale acquire.
  lemma LeaseStartsExactly(s: State, e: Event)
    requires Enabled(s, e) && LeasesRight(s)
    ensures LeasesRight(Do(s, e)) <==> !StaleAcquire(s, e)
  {
    var s' := Do(s, e);
    if StaleAcquire(s, e) {
      assert e.conn in s'.leases && !StartsRight(s'.leases[e.conn]);
    } else {
      forall conn | conn in s'.leases ensures StartsRight(s'.leases[conn]) {
        if !(e.Acquire? && e.conn == conn) { assert StartsRight(s.leases[conn]); }
      }
    }
  }

  // ----- whole runs: the same conditions, exactly -----

  ghost predicate AlwaysClean(s: State, es: seq<Event>)
    decreases |es|
  {
    IdleClean(s) && (es != [] && Enabled(s, es[0]) ==> AlwaysClean(Do(s, es[0]), es[1..]))
  }

  ghost predicate AlwaysRight(s: State, es: seq<Event>)
    decreases |es|
  {
    LeasesRight(s) && (es != [] && Enabled(s, es[0]) ==> AlwaysRight(Do(s, es[0]), es[1..]))
  }

  predicate SomeDirtyRelease(s: State, es: seq<Event>)
    decreases |es|
  {
    es != [] && Enabled(s, es[0]) && (DirtyRelease(s, es[0]) || SomeDirtyRelease(Do(s, es[0]), es[1..]))
  }

  predicate SomeStaleAcquire(s: State, es: seq<Event>)
    decreases |es|
  {
    es != [] && Enabled(s, es[0]) && (StaleAcquire(s, es[0]) || SomeStaleAcquire(Do(s, es[0]), es[1..]))
  }

  // Whatever the interleaving and whichever hooks fail: idle connections are clean all along exactly when
  // no release was dirty.
  lemma {:induction false} IsolationExactly(s: State, es: seq<Event>)
    requires IdleClean(s)
    ensures AlwaysClean(s, es) <==> !SomeDirtyRelease(s, es)
    decreases |es|
  {
    if es != [] && Enabled(s, es[0]) {
      IdleCleanExactly(s, es[0]);
      if !DirtyRelease(s, es[0]) { IsolationExactly(Do(s, es[0]), es[1..]); }
    }
  }

  // And every lease starts with its own tenant or none exactly when no acquire was stale.
  lemma {:induction false} StartsExactly(s: State, es: seq<Event>)
    requires LeasesRight(s)
    ensures AlwaysRight(s, es) <==> !SomeStaleAcquire(s, es)
    decreases |es|
  {
    if es != [] && Enabled(s, es[0]) {
      LeaseStartsExactly(s, es[0]);
      if !StaleAcquire(s, es[0]) { StartsExactly(Do(s, es[0]), es[1..]); }
    }
  }

  // Only a dirty release makes an acquire stale.
  lemma {:induction false} StaleNeedsDirty(s: State, es: seq<Event>)
    requires IdleClean(s) && SomeStaleAcquire(s, es)
    ensures SomeDirtyRelease(s, es)
    decreases |es|
  {
    if !DirtyRelease(s, es[0]) {
      IdleCleanExactly(s, es[0]);
      StaleNeedsDirty(Do(s, es[0]), es[1..]);
    }
  }

  // What BeforeAcquire does for each kind of context: for no tenant, an empty one and the system tenant it leaves
  // the connection alone; for a tenant it sets exactly that one where set_tenant resolves, tolerates that it does
  // not, and destroys the connection on any other failure.
  lemma AcquireExactly(s: State, conn: ConnId, base: Context, id: Uuid, fails: bool)
    requires conn in s.conns
    ensures OnAcquire(s, conn, Context(None), fails) == Some(s.conns[conn].setting)
    ensures OnAcquire(s, conn, WithTenantIDString(base, ""), fails) == Some(s.conns[conn].setting)
    ensures OnAcquire(s, conn, WithTenantIDString(base, "ADMIN_SYSTEM"), fails) == Some(s.conns[conn].setting)
    ensures OnAcquire(s, conn, WithSystemTenant(base), fails) == Some(s.conns[conn].setting)
    ensures OnAcquire(s, conn, WithTenantID(base, id), fails) ==
            if fails then None else Some(if Resolves(s, conn) then UuidText(id) else s.conns[conn].setting)
  {
    TenantReadsBack(base, id);
  }

  // ----- what lessees may do -----

  // A tenant is set only where set_tenant resolves.
  ghost predicate TenantsResolve(s: State) {
    forall conn | conn in s.conns && s.conns[conn].setting != "" :: Resolves(s, conn)
  }

  // The step sets no tenant where set_tenant does not resolve, and hides set_tenant from no tenant.
  ghost predicate Disciplined(s: State, e: Event) {
    match e
    case SetDirectly(conn, value) => Enabled(s, e) && value != "" ==> Resolves(s, conn)
    case SetSearchPath(conn, reaches) => Enabled(s, e) && !reaches ==> s.conns[conn].setting == ""
    case DefineSetTenant(defined) => !defined ==> forall conn | conn in s.conns :: s.conns[conn].setting == ""
    case _ => true
  }

  lemma DisciplineKeeps(s: State, e: Event)
    requires Enabled(s, e) && TenantsResolve(s) && Disciplined(s, e)
    ensures TenantsResolve(Do(s, e)) && !DirtyRelease(s, e)
  {}

  ghost predicate AllDisciplined(s: State, es: seq<Event>)
    decreases |es|
  {
    es != [] ==> Disciplined(s, es[0]) && (Enabled(s, es[0]) ==> AllDisciplined(Do(s, es[0]), es[1..]))
  }

  lemma {:induction false} DisciplineSuffices(s: State, es: seq<Event>)
    requires TenantsResolve(s) && AllDisciplined(s, es)
    ensures !SomeDirtyRelease(s, es)
    decreases |es|
  {
    if es != [] && Enabled(s, es[0]) {
      DisciplineKeeps(s, es[0]);
      DisciplineSuffices(Do(s, es[0]), es[1..]);
    }
  }

  // From the start, disciplined steps keep every idle connection clean and every lease right.
  lemma PoolIsolation(es: seq<Event>)
    requires AllDisciplined(START, es)
    ensures AlwaysClean(START, es) && AlwaysRight(START, es)
  {
    DisciplineSuffices(START, es);
    IsolationExactly(START, es);
    if SomeStaleAcquire(START, es) { StaleNeedsDirty(START, es); }
    StartsExactly(START, es);
  }

  // ----- the condition is met -----

  lemma Prepend(s: State, e: Event, rest: seq<Event>, s': State)
    requires Enabled(s, e) && Reaches(Do(s, e), rest, s')
    ensures Reaches(s, [e] + rest, s')
  {
    assert ([e] + rest)[1..] == rest;
  }

  // A setting written directly before set_tenant exists survives the release.
  lemma DirectSettingSurvives(tenant: string) returns (es: seq<Event>, s: State)
    requires tenant != ""
    ensures Reaches(START, es, s) && Idle(s, 0) && s.conns[0].setting == tenant
  {
    var s1 := Do(START, Open(0, true));
    var s2 := Do(s1, Acquire(0, Context(None), false));
    var s3 := Do(s2, SetDirectly(0, tenant));
    s := Do(s3, Release(0, false));
    Prepend(s3, Release(0, false), [], s);
    Prepend(s2, SetDirectly(0, tenant), [Release(0, false)], s);
    Prepend(s1, Acquire(0, Context(None), false), [SetDirectly(0, tenant), Release(0, false)], s);
    es := [Open(0, true)]
      + ([Acquire(0, Context(None), false)] + ([SetDirectly(0, tenant)] + [Release(0, false)]));
    Prepend(START, Open(0, true), es[1..], s);
  }

  // Connection 0, leased under `ctx` with the context's tenant, while set_tenant exists.
  function Carrying(ctx: Context, tenant: string): State {
    State(true, map[0 := Conn(tenant, true)], map[0 := Lease(ctx, tenant, true)])
  }

  lemma CarryingIsReached(tenant: string) returns (es: seq<Event>)
    requires tenant != "" && tenant != SYSTEM_TENANT
    ensures Reaches(START, es, Carrying(Context(Some(tenant)), tenant))
    ensures es == [DefineSetTenant(true), Open(0, true), Acquire(0, Context(Some(tenant)), false)]
  {
    var s, acquire := Carrying(Context(Some(tenant)), tenant), Acquire(0, Context(Some(tenant)), false);
    var s1, s2 := State(true, map[], map[]), State(true, map[0 := Conn("", true)], map[]);
    assert Do(START, DefineSetTenant(true)) == s1 && Do(s1, Open(0, true)) == s2 && Do(s2, acquire) == s;
    Prepend(s2, acquire, [], s);
    Prepend(s1, Open(0, true), [acquire], s);
    Prepend(START, DefineSetTenant(true), [Open(0, true)] + [acquire], s);
    es := [DefineSetTenant(true)] + ([Open(0, true)] + [acquire]);
  }

  lemma {:induction false} Chain(s: State, es: seq<Event>, s': State, more: seq<Event>, s'': State)
    requires Reaches(s, es, s') && Reaches(s', more, s'')
    ensures Reaches(s, es + more, s'')
    decreases |es|
  {
    if es == [] {
      assert es + more == more;
    } else {
      Chain(Do(s, es[0]), es[1..], s', more, s'');
      assert (es + more)[1..] == es[1..] + more;
    }
  }

  // From there the lessee moves the search_path away from set_tenant; the next lessee starts with the same tenant.
  lemma HiddenFunctionLeaks(a: string, b: string) returns (es: seq<Event>, s: State)
    requires b != "" && b != SYSTEM_TENANT
    ensures Reaches(Carrying(Context(Some(a)), a), es, s) && s.defined && 0 in s.leases
    ensures Wanted(s.leases[0].ctx) == Some(b) && s.leases[0].start == a
    ensures es == [SetSearchPath(0, false), Release(0, false), Acquire(0, Context(Some(b)), false)]
  {
    var start, acquire := Carrying(Context(Some(a)), a), Acquire(0, Context(Some(b)), false);
    var s1 := State(true, map[0 := Conn(a, false)], start.leases);
    var s2 := State(true, map[0 := Conn(a, false)], map[]);
    s := State(true, map[0 := Conn(a, false)], map[0 := Lease(Context(Some(b)), a, false)]);
    assert Do(start, SetSearchPath(0, false)) == s1 && Do(s1, Release(0, false)) == s2 && Do(s2, acquire) == s;
    Prepend(s2, acquire, [], s);
    Prepend(s1, Release(0, false), [acquire], s);
    Prepend(start, SetSearchPath(0, false), [Release(0, false)] + [acquire], s);
    es := [SetSearchPath(0, false)] + ([Release(0, false)] + [acquire]);
  }

  // So a lease of tenant `b` can start with tenant `a`, though set_tenant exists from the first step on
  // and nobody sets a tenant directly.
  lemma TenantLeaks(a: string, b: string) returns (es: seq<Event>, s: State)
    requires a != "" && a != SYSTEM_TENANT && b != "" && b != SYSTEM_TENANT && a != b
    ensures Reaches(START, es, s) && s.defined && 0 in s.leases
    ensures Wanted(s.leases[0].ctx) == Some(b) && s.leases[0].start == a
    ensures |es| > 0 && es[0] == DefineSetTenant(true) && forall e | e in es :: !e.SetDirectly?
  {
    var before := CarryingIsReached(a);
    var after;
    after, s := HiddenFunctionLeaks(a, b);
    Chain(START, before, Carrying(Context(Some(a)), a), after, s);
    es := before + after;
  }
}
