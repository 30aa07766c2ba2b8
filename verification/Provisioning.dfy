// The rows auth/postgres_store.go writes: which, in which order, and how far when a call fails.
module Provisioning {
  import opened Wrappers
  import opened Hasher
  import opened Schema
  import opened StoreSpec
  import opened Runs
  import opened Accounts
  import opened Memberships

  // ----- keys: what the primary and foreign keys of the tables keep -----

  ghost predicate RowsFit(t: Tables) {
    && UniqueTenants(t.tenants) && UniqueKeys(t.memberships)
    && (forall i | 0 <= i < |t.memberships| :: HasUser(t.users, t.memberships[i].user))
  }

  // ----- one call of ResolveOrProvisionUser -----

  function Optional(s: string): Option<string> { if s == "" then None else Some(s) }

  // The columns of a new user: the preferred username goes first, and empty texts are NULL.
  function NewRow(identity: Identity, id: Uuid, now: Time): User {
    User(id, identity.email, identity.emailVerified,
         Optional(if identity.preferredUsername != "" then identity.preferredUsername else identity.username),
         Optional(identity.name), identity.issuer, identity.subject, now)
  }

  lemma RowOfIdentity(identity: Identity, ids: FreshIds, now: Time)
    ensures NewUser(identity, ids, now) == NewRow(identity, ids.user, now)
  {}

  function TenantsAfter(name: string, t: Tables, ids: FreshIds): (ts: seq<Tenant>)
    ensures |ts| > 0
  {
    if t.tenants == [] then [Tenant(ids.tenant, name)] else t.tenants
  }

  predicate StopsAtTenant(t: Tables, faults: Faults) {
    ResolveUser in faults || ReadFirstTenant in faults || (t.tenants == [] && AddTenant in faults)
  }

  // The new user would break the primary key, unique_issuer_subject or the index on non-empty emails.
  ghost predicate Breaks(users: seq<User>, u: User) {
    exists v :: v in users && (v.id == u.id || (v.issuer == u.issuer && v.subject == u.subject)
                               || (v.email != "" && v.email == u.email && v.issuer == u.issuer))
  }

  ghost predicate StopsAtUser(t: Tables, u: User, faults: Faults) {
    StopsAtTenant(t, faults) || AddUser in faults || Breaks(t.users, u)
  }

  // What the creation of a user leaves: tenant, user and membership, up to the first call that fails.
  ghost predicate Creates(name: string, t: Tables, u: User, ids: FreshIds, faults: Faults, t': Tables) {
    && t'.tenants == (if StopsAtTenant(t, faults) then t.tenants else TenantsAfter(name, t, ids))
    && t'.users == (if StopsAtUser(t, u, faults) then t.users else t.users + [u])
    && t'.memberships == (if StopsAtUser(t, u, faults) || AddMembership in faults then t.memberships
                          else t.memberships + [Membership(u.id, TenantsAfter(name, t, ids)[0].id, "member")])
    && t'.credentials == t.credentials && t'.attempts == t.attempts && t'.tokens == t.tokens
  }

  lemma BreaksIsClash(users: seq<User>, u: User)
    ensures Breaks(users, u) <==> ClashesWithSome(users, u)
  {
    if v :| v in users && Clash(v, u) {}
  }

  lemma FirstTenantExactly(name: string, t: Tables, ids: FreshIds, faults: Faults)
    ensures var (t1, r) := FirstTenantOrCreate(name, t, ids, faults);
      if StopsAtTenant(t, faults) && ResolveUser !in faults then t1 == t && r.Err?
      else ReadFirstTenant !in faults && (t.tenants == [] ==> AddTenant !in faults) ==>
        t1 == t.(tenants := TenantsAfter(name, t, ids)) && r == Ok(t1.tenants[0].id) && HasTenant(t1.tenants, r.value)
  {
    var t1 := FirstTenantOrCreate(name, t, ids, faults).0;
    if t1.tenants != [] { assert t1.tenants[0] in t1.tenants; }
  }

  lemma NewUserHasNoRow(t: Tables, u: User, tenant: Uuid)
    requires RowsFit(t) && !ClashesWithSome(t.users, u)
    ensures !HasKey(t.memberships, Membership(u.id, tenant, "member"))
  {
    forall m | m in t.memberships ensures m.user != u.id {
      var i :| 0 <= i < |t.memberships| && t.memberships[i] == m;
      NewIdIsNew(t.users, u, m.user);
    }
  }

  lemma CreateExactly(name: string, t: Tables, now: Time, u: User, ids: FreshIds, inTx: bool, faults: Faults)
    requires RowsFit(t) && ResolveUser !in faults
    ensures var (t', r) := Create(name, t, now, u, ids, inTx, faults);
      && Creates(name, t, u, ids, faults, t')
      && (r.Ok? <==> && !StopsAtUser(t, u, faults) && faults !! {AddMembership, ReadMemberships}
                     && (inTx ==> ReadTenantName !in faults))
      && (r.Ok? ==> r.value == UserRef(u.id, u.issuer, u.subject))
  {
    FirstTenantExactly(name, t, ids, faults);
    BreaksIsClash(t.users, u);
    if !StopsAtUser(t, u, faults) {
      var m := Membership(u.id, TenantsAfter(name, t, ids)[0].id, "member");
      NewUserHasNoRow(t, u, m.tenant);
      UpsertExactly(t.memberships, m);
      assert UpsertMembership(t.memberships, m) == t.memberships + [m];
      UpsertGivesMembership(t.memberships, TenantsAfter(name, t, ids), m);
    }
  }

  // The user of this issuer and subject.
  ghost predicate IsUserOf(t: Tables, identity: Identity, u: User) {
    u in t.users && u.issuer == identity.issuer && u.subject == identity.subject
  }

  ghost predicate Member(t: Tables, user: Uuid) {
    exists m :: m in t.memberships && m.user == user && HasTenant(t.tenants, m.tenant)
  }

  lemma MemberExactly(t: Tables, user: Uuid)
    ensures Member(t, user) <==> MembershipsOf(t.memberships, t.tenants, user) != []
  {
    var at := ListingExactly(t.memberships, t.tenants, user);
    if |at| > 0 { assert at[0] in at && t.memberships[at[0]] in t.memberships; }
    if m :| m in t.memberships && m.user == user && HasTenant(t.tenants, m.tenant) {
      var i: nat :| i < |t.memberships| && t.memberships[i] == m;
      assert Listed(t.memberships, t.tenants, user, i) && i in at;
    }
  }

  lemma FoundIsUser(t: Tables, identity: Identity, u: User)
    requires UniqueUsers(t.users) && IsUserOf(t, identity, u)
    ensures FindUser(t.users, BySubject(identity.issuer, identity.subject)) == Some(u)
  {
    var i :| 0 <= i < |t.users| && t.users[i] == u;
    FindUnique(t.users, BySubject(identity.issuer, identity.subject), i);
  }

  // A known user is returned, if it has a membership and no call fails, and nothing is written.
  lemma KnownIsReturned(name: string, t: Tables, now: Time, identity: Identity, ids: FreshIds, inTx: bool,
                        faults: Faults, u: User)
    requires UniqueUsers(t.users) && IsUserOf(t, identity, u)
    ensures var (t', r) := Provision(name, t, now, identity, ids, inTx, faults);
      && t' == t && (r.Ok? <==> faults !! {ResolveUser, ReadMemberships} && Member(t, u.id))
      && (r.Ok? ==> r.value == UserRef(u.id, u.issuer, u.subject))
  {
    FoundIsUser(t, identity, u);
    MemberExactly(t, u.id);
  }

  // An unknown one is created as far as the calls succeed.
  lemma UnknownIsCreated(name: string, t: Tables, now: Time, identity: Identity, ids: FreshIds, inTx: bool,
                         faults: Faults)
    requires RowsFit(t) && forall u :: !IsUserOf(t, identity, u)
    ensures var (t', r) := Provision(name, t, now, identity, ids, inTx, faults);
      var u := NewRow(identity, ids.user, now);
      && Creates(name, t, u, ids, faults, t')
      && (r.Ok? <==> && !StopsAtUser(t, u, faults) && faults !! {AddMembership, ReadMemberships}
                     && (inTx ==> ReadTenantName !in faults))
      && (r.Ok? ==> r.value == UserRef(ids.user, identity.issuer, identity.subject))
  {
    var found := FindUser(t.users, BySubject(identity.issuer, identity.subject));
    assert found.Some? ==> IsUserOf(t, identity, found.value);
    RowOfIdentity(identity, ids, now);
    if ResolveUser !in faults {
      CreateExactly(name, t, now, NewRow(identity, ids.user, now), ids, inTx, faults);
    }
  }

  // ----- every run keeps the keys -----

  lemma CreatesKeepsRows(name: string, t: Tables, u: User, ids: FreshIds, faults: Faults, t': Tables)
    requires RowsFit(t) && Creates(name, t, u, ids, faults, t')
    ensures RowsFit(t')
  {
    forall i | 0 <= i < |t'.memberships| ensures HasUser(t'.users, t'.memberships[i].user) {
      if i < |t.memberships| {
        assert HasUser(t.users, t.memberships[i].user);
        var v :| v in t.users && v.id == t.memberships[i].user;
        assert v in t'.users;
      } else {
        assert t'.users[|t.users|] == u;
      }
    }
    if t'.memberships != t.memberships {
      BreaksIsClash(t.users, u);
      NewUserHasNoRow(t, u, t'.memberships[|t.memberships|].tenant);
      forall i | 0 <= i < |t.memberships| ensures !SameKey(t.memberships[i], t'.memberships[|t.memberships|]) {
        assert t.memberships[i] in t.memberships;
      }
    }
  }

  lemma MildKeepsRows(cfg: Config, t: Tables, t': Tables)
    requires RowsFit(t) && Mild(t, t')
    ensures RowsFit(t')
  {
    forall i | 0 <= i < |t'.memberships| ensures HasUser(t'.users, t'.memberships[i].user) {
      UsersStay(cfg, t.users, t'.users, t.memberships[i].user);
    }
  }

  // The tables of a registration that succeeds, but for credential and token.
  lemma SignUpRows(cfg: Config, w: World, op: Op)
    requires Invariant(cfg, w.db) && RowsFit(w.db) && op.SignUp? && Apply(cfg, w, op).1.Registered?
    ensures var t, t', u := w.db, Apply(cfg, w, op).0, NewRow(LocalIdentity(cfg, op.req), op.ids.user, w.now);
      && t'.users == t.users + [u] && t'.tenants == TenantsAfter(cfg.tenantName, t, op.ids)
      && t'.memberships == t.memberships + [Membership(op.ids.user, t'.tenants[0].id, "member")]
      && t'.attempts == t.attempts && !Breaks(t.users, u)
  {
    var hash := w.hasher.hash(op.salt, op.req.password);
    RegisterUnfolds(cfg, w.db, w.now, op.req, hash, op.ids, op.mail, op.faults);
    RowOfIdentity(LocalIdentity(cfg, op.req), op.ids, w.now);
    NoUserYet(cfg, w.db, op.req.email);
    var u := NewRow(LocalIdentity(cfg, op.req), op.ids.user, w.now);
    CreateExactly(cfg.tenantName, w.db, w.now, u, op.ids, true, op.faults);
  }

  lemma SignUpKeepsRows(cfg: Config, w: World, op: Op)
    requires Invariant(cfg, w.db) && RowsFit(w.db) && op.SignUp?
    ensures RowsFit(Apply(cfg, w, op).0)
  {
    var t' := Apply(cfg, w, op).0;
    if Apply(cfg, w, op).1.Registered? {
      SignUpRows(cfg, w, op);
      var u := NewRow(LocalIdentity(cfg, op.req), op.ids.user, w.now);
      var written := w.db.(users := t'.users, tenants := t'.tenants, memberships := t'.memberships);
      CreatesKeepsRows(cfg.tenantName, w.db, u, op.ids, {}, written);
    }
  }

  lemma FederatedKeepsRows(cfg: Config, w: World, op: Op)
    requires Invariant(cfg, w.db) && RowsFit(w.db) && op.FederatedLogin?
    ensures RowsFit(Apply(cfg, w, op).0)
  {
    var found := FindUser(w.db.users, BySubject(op.identity.issuer, op.identity.subject));
    if found.None? {
      UnknownIsCreated(cfg.tenantName, w.db, w.now, op.identity, op.ids, false, op.faults);
      var u := NewRow(op.identity, op.ids.user, w.now);
      CreatesKeepsRows(cfg.tenantName, w.db, u, op.ids, op.faults, Apply(cfg, w, op).0);
    }
  }

  lemma RequestKeepsRows(cfg: Config, w: World, op: Op)
    requires op.RequestReset? || op.RequestVerification? || op.Tick? || op.Redeploy?
    ensures var t, t' := w.db, Apply(cfg, w, op).0;
      t'.users == t.users && t'.tenants == t.tenants && t'.memberships == t.memberships
  {}

  lemma StepKeepsRows(cfg: Config, w: World, op: Op)
    requires Invariant(cfg, w.db) && RowsFit(w.db)
    ensures RowsFit(Apply(cfg, w, op).0)
  {
    if op.SignUp? { SignUpKeepsRows(cfg, w, op); }
    else if op.FederatedLogin? { FederatedKeepsRows(cfg, w, op); }
    else if op.Login? || op.Change? || op.Reset? || op.Confirm? {
      MildOps(cfg, w, op);
      MildKeepsRows(cfg, w.db, Apply(cfg, w, op).0);
    }
    else { RequestKeepsRows(cfg, w, op); }
  }

  lemma StepKeepsRowsAt(cfg: Config, r: Run, i: nat)
    requires IsRun(cfg, r) && i < |r.ops| && RowsFit(r.worlds[i].db)
    ensures RowsFit(r.worlds[i + 1].db)
  {
    RunKeepsInvariant(cfg, r, i);
    assert StepAt(cfg, r, i);
    StepKeepsRows(cfg, r.worlds[i], r.ops[i]);
  }

  // In every run the keys of tenants and memberships are unique, and memberships have their user and tenant.
  lemma {:induction false} RunRowsFit(cfg: Config, r: Run, n: nat)
    requires IsRun(cfg, r) && n <= |r.ops|
    ensures RowsFit(r.worlds[n].db)
  {
    if n > 0 {
      RunRowsFit(cfg, r, n - 1);
      StepKeepsRowsAt(cfg, r, n - 1);
    }
  }

  // What ListMemberships shows of a user in any run: exactly the tenants of the user's memberships, each once.
  lemma RunListing(cfg: Config, r: Run, n: nat, user: Uuid)
    requires IsRun(cfg, r) && n <= |r.ops|
    ensures var t := r.worlds[n].db;
      var ts := TenantsOf(MembershipsOf(t.memberships, t.tenants, user));
      && (forall x :: x in ts <==> exists m :: m in t.memberships && m.user == user && m.tenant == x)
      && (forall j, k | 0 <= j < k < |ts| :: ts[j] != ts[k])
  {
    RunRowsFit(cfg, r, n);
    RunKeepsInvariant(cfg, r, n);
    TenantsExactly(r.worlds[n].db.memberships, r.worlds[n].db.tenants, user);
  }

  // ----- federated logins over whole runs -----

  lemma FederatedAt(cfg: Config, r: Run, n: nat)
    requires IsRun(cfg, r) && n < |r.ops| && r.ops[n].FederatedLogin?
    ensures var w, op := r.worlds[n], r.ops[n];
      var (t', p) := Provision(cfg.tenantName, w.db, w.now, op.identity, op.ids, false, op.faults);
      && r.worlds[n + 1].db == t'
      && r.replies[n] == match p case Ok(ref) => LoggedIn(ref) case Err(_) => Failed(Internal)
  {
    assert StepAt(cfg, r, n);
  }

  // Whoever is known by issuer and subject is logged in as that user, without a trace in the tables.
  lemma KnownLogsIn(cfg: Config, r: Run, n: nat, u: User)
    requires IsRun(cfg, r) && n < |r.ops| && r.ops[n].FederatedLogin?
    requires IsUserOf(r.worlds[n].db, r.ops[n].identity, u)
    ensures r.worlds[n + 1].db == r.worlds[n].db
    ensures r.replies[n] ==
            if r.ops[n].faults !! {ResolveUser, ReadMemberships} && Member(r.worlds[n].db, u.id)
            then LoggedIn(UserRef(u.id, u.issuer, u.subject)) else Failed(Internal)
  {
    RunKeepsInvariant(cfg, r, n);
    FederatedAt(cfg, r, n);
    var w, op := r.worlds[n], r.ops[n];
    KnownIsReturned(cfg.tenantName, w.db, w.now, op.identity, op.ids, false, op.faults, u);
  }

  // Whoever is not is created, with a membership of the first tenant, and logged in; a call that fails stops it
  // there, and what was written before stays.
  lemma UnknownIsProvisioned(cfg: Config, r: Run, n: nat)
    requires IsRun(cfg, r) && n < |r.ops| && r.ops[n].FederatedLogin?
    requires forall u :: !IsUserOf(r.worlds[n].db, r.ops[n].identity, u)
    ensures var w, op := r.worlds[n], r.ops[n];
      var u := NewRow(op.identity, op.ids.user, w.now);
      && Creates(cfg.tenantName, w.db, u, op.ids, op.faults, r.worlds[n + 1].db)
      && r.replies[n] ==
         if !StopsAtUser(w.db, u, op.faults) && op.faults !! {AddMembership, ReadMemberships}
         then LoggedIn(UserRef(op.ids.user, op.identity.issuer, op.identity.subject)) else Failed(Internal)
  {
    RunRowsFit(cfg, r, n);
    FederatedAt(cfg, r, n);
    var w, op := r.worlds[n], r.ops[n];
    UnknownIsCreated(cfg.tenantName, w.db, w.now, op.identity, op.ids, false, op.faults);
  }
}
