// The account invariant: every operation keeps it whichever of its calls fail, so every run does.
module Accounts {
  import opened Wrappers
  import opened Base64
  import opened Hasher
  import opened Schema
  import opened StoreSpec
  import opened Runs

  ghost predicate UniqueUsers(users: seq<User>) {
    forall i, j | 0 <= i < j < |users| :: !Clash(users[i], users[j])
  }

  // An account of the local issuer: its email is its subject, it has a membership and its one credential.
  ghost predicate Account(t: Tables, u: User) {
    && u.email == u.subject && u.email != ""
    && u.id in t.credentials
    && MembershipsOf(t.memberships, t.tenants, u.id) != []
  }

  ghost predicate LocalUser(cfg: Config, users: seq<User>, id: Uuid) {
    exists i | 0 <= i < |users| :: users[i].id == id && users[i].issuer == cfg.issuer
  }

  // Tokens belong to users, reset tokens to local ones.
  ghost predicate TokenOwnerFits(cfg: Config, users: seq<User>, tok: TokenRow) {
    HasUser(users, tok.user) && (tok.kind.PasswordReset? ==> LocalUser(cfg, users, tok.user))
  }

  // `pending` is the user a registration is about to complete.
  ghost predicate InvariantBut(cfg: Config, t: Tables, pending: Option<Uuid>) {
    && UniqueUsers(t.users)
    && (forall i | 0 <= i < |t.users| ::
          t.users[i].issuer == cfg.issuer && pending != Some(t.users[i].id) ==> Account(t, t.users[i]))
    && (forall id | id in t.credentials :: LocalUser(cfg, t.users, id))
    && (forall i | 0 <= i < |t.tokens| :: TokenOwnerFits(cfg, t.users, t.tokens[i]))
    && (forall i | 0 <= i < |t.memberships| :: HasTenant(t.tenants, t.memberships[i].tenant))
  }

  ghost predicate Invariant(cfg: Config, t: Tables) { InvariantBut(cfg, t, None) }

  // ----- lookups under uniqueness -----

  lemma {:induction false} FindUnique(users: seq<User>, key: UserKey, i: nat)
    requires UniqueUsers(users) && i < |users| && Matches(users[i], key)
    requires key.ByEmail? ==> key.email != ""
    ensures FindUser(users, key) == Some(users[i])
  {
    if i > 0 {
      assert !Clash(users[0], users[i]);
      FindUnique(users[1..], key, i - 1);
    }
  }

  lemma IdsDiffer(users: seq<User>, i: nat, j: nat)
    requires UniqueUsers(users) && i < |users| && j < |users| && i != j
    ensures users[i].id != users[j].id
  {
    if i < j {
      assert !Clash(users[i], users[j]);
    } else {
      assert !Clash(users[j], users[i]);
    }
  }

  lemma NewIdIsNew(users: seq<User>, u: User, id: Uuid)
    requires !ClashesWithSome(users, u) && HasUser(users, id)
    ensures id != u.id
  {
    var v :| v in users && v.id == id;
    assert !Clash(v, u);
  }

  // ----- memberships -----

  lemma {:induction false} NameOfTenant(tenants: seq<Tenant>, id: Uuid)
    ensures TenantName(tenants, id).Some? <==> HasTenant(tenants, id)
  {
    if tenants != [] {
      NameOfTenant(tenants[1..], id);
      if HasTenant(tenants, id) && tenants[0].id != id {
        var t :| t in tenants && t.id == id;
        assert t in tenants[1..];
      }
    }
  }

  lemma {:induction false} UpsertGivesMembership(ms: seq<Membership>, tenants: seq<Tenant>, m: Membership)
    requires HasTenant(tenants, m.tenant)
    ensures MembershipsOf(UpsertMembership(ms, m), tenants, m.user) != []
  {
    NameOfTenant(tenants, m.tenant);
    if ms != [] && !(ms[0].user == m.user && ms[0].tenant == m.tenant) {
      UpsertGivesMembership(ms[1..], tenants, m);
      assert UpsertMembership(ms, m)[1..] == UpsertMembership(ms[1..], m);
    }
  }

  lemma {:induction false} UpsertKeepsOthers(ms: seq<Membership>, tenants: seq<Tenant>, m: Membership, user: Uuid)
    requires user != m.user
    ensures MembershipsOf(UpsertMembership(ms, m), tenants, user) == MembershipsOf(ms, tenants, user)
  {
    if ms == [] {
      assert [m][1..] == [];
    } else if ms[0].user == m.user && ms[0].tenant == m.tenant {
      assert ([m] + ms[1..])[1..] == ms[1..];
    } else {
      UpsertKeepsOthers(ms[1..], tenants, m, user);
      assert UpsertMembership(ms, m)[1..] == UpsertMembership(ms[1..], m);
    }
  }

  lemma {:induction false} UpsertTenants(ms: seq<Membership>, m: Membership)
    ensures forall x | x in UpsertMembership(ms, m) :: x == m || x in ms
  {
    if ms != [] && !(ms[0].user == m.user && ms[0].tenant == m.tenant) {
      UpsertTenants(ms[1..], m);
    }
  }

  lemma {:induction false} NewTenantKeepsMemberships(ms: seq<Membership>, tenants: seq<Tenant>, t: Tenant, user: Uuid)
    requires MembershipsOf(ms, tenants, user) != []
    ensures MembershipsOf(ms, tenants + [t], user) != []
  {
    if ms[0].user == user && TenantName(tenants, ms[0].tenant).Some? {
      NameOfTenant(tenants, ms[0].tenant);
      NameOfTenant(tenants + [t], ms[0].tenant);
    } else {
      NewTenantKeepsMemberships(ms[1..], tenants, t, user);
    }
  }

  // ----- the writes of an operation -----

  ghost predicate SameIdentity(u: User, v: User) {
    u.id == v.id && u.email == v.email && u.issuer == v.issuer && u.subject == v.subject
  }

  lemma UsersStay(cfg: Config, users: seq<User>, users': seq<User>, id: Uuid)
    requires |users| <= |users'| && forall i | 0 <= i < |users| :: SameIdentity(users[i], users'[i])
    ensures HasUser(users, id) ==> HasUser(users', id)
    ensures LocalUser(cfg, users, id) ==> LocalUser(cfg, users', id)
  {
    if HasUser(users, id) {
      var u :| u in users && u.id == id;
      var k :| 0 <= k < |users| && users[k] == u;
      assert users'[k] in users';
    }
    if LocalUser(cfg, users, id) {
      var k :| 0 <= k < |users| && users[k].id == id && users[k].issuer == cfg.issuer;
      assert SameIdentity(users[k], users'[k]);
    }
  }

  // Changes of passwords, tokens, attempts, verified flags and login times.
  ghost predicate Mild(t: Tables, t': Tables) {
    && |t'.users| == |t.users| && (forall i | 0 <= i < |t.users| :: SameIdentity(t.users[i], t'.users[i]))
    && t'.tenants == t.tenants && t'.memberships == t.memberships && t'.credentials.Keys == t.credentials.Keys
    && |t'.tokens| == |t.tokens| && (forall i | 0 <= i < |t.tokens| ::
          t'.tokens[i].user == t.tokens[i].user && t'.tokens[i].kind == t.tokens[i].kind)
  }

  lemma MildKeeps(cfg: Config, t: Tables, t': Tables)
    requires Invariant(cfg, t) && Mild(t, t')
    ensures Invariant(cfg, t')
  {
    forall i | 0 <= i < |t'.tokens| ensures TokenOwnerFits(cfg, t.users, t'.tokens[i]) {
      assert TokenOwnerFits(cfg, t.users, t.tokens[i]);
    }
    Frame(cfg, t, t');
  }

  lemma LogInIsMild(cfg: Config, hasher: PasswordHasher, t: Tables, now: Time, u: User, password: string,
                    salt: seq<Byte>, needsRehash: bool, faults: Faults)
    ensures Mild(t, LogIn(cfg, hasher, t, now, u, password, salt, needsRehash, faults).0)
  {}

  lemma LoginIsMild(cfg: Config, hasher: PasswordHasher, t: Tables, now: Time, email: string, password: string,
                    salt: seq<Byte>, faults: Faults)
    ensures Mild(t, Authenticate(cfg, hasher, t, now, email, password, salt, faults).0)
  {
    var found := FindUser(t.users, ByEmail(email, cfg.issuer));
    if found.Some? && found.value.id in t.credentials {
      var verdict := hasher.verify(password, t.credentials[found.value.id]);
      if verdict.Verdict? && verdict.matched {
        LogInIsMild(cfg, hasher, t, now, found.value, password, salt, verdict.needsRehash, faults);
      }
    }
  }

  lemma StoreIsMild(cfg: Config, hasher: PasswordHasher, t: Tables, user: Uuid, newPassword: string, salt: seq<Byte>,
                    faults: Faults)
    ensures var r := StorePassword(cfg, hasher, t, user, newPassword, salt, faults); r.Ok? ==> Mild(t, r.value)
  {}

  lemma ChangeIsMild(cfg: Config, hasher: PasswordHasher, t: Tables, now: Time, user: Uuid, oldPassword: string,
                     newPassword: string, salt: seq<Byte>, faults: Faults)
    ensures Mild(t, ChangePassword(cfg, hasher, t, now, user, oldPassword, newPassword, salt, faults).0)
  {
    StoreIsMild(cfg, hasher, t, user, newPassword, salt, faults);
  }

  lemma ResetIsMild(cfg: Config, hasher: PasswordHasher, t: Tables, now: Time, token: string, newPassword: string,
                    salt: seq<Byte>, faults: Faults)
    ensures Mild(t, CompletePasswordReset(cfg, hasher, t, now, token, newPassword, salt, faults).0)
  {
    var owner := TokenOwner(t.tokens, cfg.sha(token), PasswordReset, now);
    if owner.Some? {
      var t1 := t.(tokens := ConsumeTokens(t.tokens, cfg.sha(token), PasswordReset, now));
      StoreIsMild(cfg, hasher, t1, owner.value, newPassword, salt, faults);
    }
  }

  lemma Frame(cfg: Config, t: Tables, t': Tables)
    requires Invariant(cfg, t)
    requires |t'.users| == |t.users| && forall i | 0 <= i < |t.users| :: SameIdentity(t.users[i], t'.users[i])
    requires t'.tenants == t.tenants && t'.memberships == t.memberships && t'.credentials.Keys == t.credentials.Keys
    requires forall i | 0 <= i < |t'.tokens| :: TokenOwnerFits(cfg, t.users, t'.tokens[i])
    ensures Invariant(cfg, t')
  {
    forall i, j | 0 <= i < j < |t'.users| ensures !Clash(t'.users[i], t'.users[j]) {
      assert !Clash(t.users[i], t.users[j]);
    }
    forall i | 0 <= i < |t'.users| && t'.users[i].issuer == cfg.issuer ensures Account(t', t'.users[i]) {
      assert Account(t, t.users[i]);
    }
    forall id | id in t'.credentials ensures LocalUser(cfg, t'.users, id) {
      UsersStay(cfg, t.users, t'.users, id);
    }
    forall i | 0 <= i < |t'.tokens| ensures TokenOwnerFits(cfg, t'.users, t'.tokens[i]) {
      assert TokenOwnerFits(cfg, t.users, t'.tokens[i]);
      UsersStay(cfg, t.users, t'.users, t'.tokens[i].user);
    }
  }

  lemma AddTenantKeeps(cfg: Config, t: Tables, tenant: Tenant)
    requires Invariant(cfg, t)
    ensures Invariant(cfg, t.(tenants := t.tenants + [tenant]))
  {
    var t' := t.(tenants := t.tenants + [tenant]);
    forall i | 0 <= i < |t.users| && t.users[i].issuer == cfg.issuer ensures Account(t', t.users[i]) {
      assert Account(t, t.users[i]);
      NewTenantKeepsMemberships(t.memberships, t.tenants, tenant, t.users[i].id);
    }
    forall i | 0 <= i < |t.memberships| ensures HasTenant(t'.tenants, t.memberships[i].tenant) {
      var x :| x in t.tenants && x.id == t.memberships[i].tenant;
      assert x in t'.tenants;
    }
  }

  lemma AddUserKeeps(cfg: Config, t: Tables, u: User)
    requires Invariant(cfg, t) && !ClashesWithSome(t.users, u)
    ensures InvariantBut(cfg, t.(users := t.users + [u]), Some(u.id))
    ensures u.issuer != cfg.issuer ==> Invariant(cfg, t.(users := t.users + [u]))
  {
    var t' := t.(users := t.users + [u]);
    forall i, j | 0 <= i < j < |t'.users| ensures !Clash(t'.users[i], t'.users[j]) {
      if j == |t.users| { assert t.users[i] in t.users; }
    }
    forall i | 0 <= i < |t.users| && t.users[i].issuer == cfg.issuer ensures Account(t', t'.users[i]) {
      assert Account(t, t.users[i]);
    }
    forall id | id in t'.credentials ensures LocalUser(cfg, t'.users, id) {
      UsersStay(cfg, t.users, t'.users, id);
    }
    forall i | 0 <= i < |t'.tokens| ensures TokenOwnerFits(cfg, t'.users, t'.tokens[i]) {
      assert TokenOwnerFits(cfg, t.users, t.tokens[i]);
      UsersStay(cfg, t.users, t'.users, t.tokens[i].user);
    }
  }

  lemma AddMembershipKeeps(cfg: Config, t: Tables, u: User, tenant: Uuid, pending: Option<Uuid>)
    requires InvariantBut(cfg, t, pending) && HasTenant(t.tenants, tenant)
    requires pending == Some(u.id) || (pending.None? && u in t.users && u.issuer != cfg.issuer)
    ensures var m := Membership(u.id, tenant, "member");
      InvariantBut(cfg, t.(memberships := UpsertMembership(t.memberships, m)), pending)
  {
    var m := Membership(u.id, tenant, "member");
    var t' := t.(memberships := UpsertMembership(t.memberships, m));
    forall i | 0 <= i < |t.users| && t.users[i].issuer == cfg.issuer && pending != Some(t.users[i].id)
      ensures Account(t', t.users[i])
    {
      assert Account(t, t.users[i]);
      if pending.None? {
        var k :| 0 <= k < |t.users| && t.users[k] == u;
        if i != k { IdsDiffer(t.users, i, k); }
      }
      UpsertKeepsOthers(t.memberships, t.tenants, m, t.users[i].id);
    }
    UpsertTenants(t.memberships, m);
    forall i | 0 <= i < |t'.memberships| ensures HasTenant(t'.tenants, t'.memberships[i].tenant) {
      if t'.memberships[i] != m {
        assert t'.memberships[i] in t.memberships;
      }
    }
  }

  // ----- registration and federated login -----

  lemma TenantStepKeeps(cfg: Config, t: Tables, ids: FreshIds, faults: Faults)
    requires Invariant(cfg, t)
    ensures var (t1, r) := FirstTenantOrCreate(cfg.tenantName, t, ids, faults);
      && Invariant(cfg, t1) && t1.users == t.users && t1.credentials == t.credentials && t1.tokens == t.tokens
      && (r.Ok? ==> HasTenant(t1.tenants, r.value))
  {
    var t1 := FirstTenantOrCreate(cfg.tenantName, t, ids, faults).0;
    if t1 != t {
      AddTenantKeeps(cfg, t, Tenant(ids.tenant, cfg.tenantName));
      assert t1.tenants[|t.tenants|] in t1.tenants;
    } else if t.tenants != [] {
      assert t.tenants[0] in t.tenants;
    }
  }

  // A new user of another issuer, however far the creation gets.
  lemma CreateForeignKeeps(cfg: Config, t: Tables, now: Time, u: User, ids: FreshIds, faults: Faults)
    requires Invariant(cfg, t) && u.issuer != cfg.issuer
    ensures Invariant(cfg, Create(cfg.tenantName, t, now, u, ids, false, faults).0)
  {
    TenantStepKeeps(cfg, t, ids, faults);
    var (t1, tenant) := FirstTenantOrCreate(cfg.tenantName, t, ids, faults);
    if tenant.Ok? && AddUser !in faults && !ClashesWithSome(t1.users, u) {
      AddUserKeeps(cfg, t1, u);
      var t2 := t1.(users := t1.users + [u]);
      assert t2.users[|t1.users|] == u;
      AddMembershipKeeps(cfg, t2, u, tenant.value, None);
    }
  }

  // A new local user with everything but the credential.
  lemma CreateLocalPrepares(cfg: Config, t: Tables, now: Time, u: User, ids: FreshIds, faults: Faults)
    requires Invariant(cfg, t)
    requires Create(cfg.tenantName, t, now, u, ids, true, faults).1.Ok?
    ensures var t' := Create(cfg.tenantName, t, now, u, ids, true, faults).0;
      && InvariantBut(cfg, t', Some(u.id))
      && t'.users == t.users + [u] && t'.credentials == t.credentials && t'.tokens == t.tokens
      && MembershipsOf(t'.memberships, t'.tenants, u.id) != []
  {
    TenantStepKeeps(cfg, t, ids, faults);
    var (t1, tenant) := FirstTenantOrCreate(cfg.tenantName, t, ids, faults);
    AddUserKeeps(cfg, t1, u);
    var t2 := t1.(users := t1.users + [u]);
    AddMembershipKeeps(cfg, t2, u, tenant.value, Some(u.id));
  }

  // Storing the credential completes the account.
  lemma CredentialCompletes(cfg: Config, t: Tables, u: User, hash: string)
    requires InvariantBut(cfg, t, Some(u.id)) && u in t.users && u.issuer == cfg.issuer
    requires u.email == u.subject && u.email != "" && MembershipsOf(t.memberships, t.tenants, u.id) != []
    ensures Invariant(cfg, t.(credentials := t.credentials[u.id := hash]))
  {
    var t' := t.(credentials := t.credentials[u.id := hash]);
    var k :| 0 <= k < |t.users| && t.users[k] == u;
    forall i | 0 <= i < |t.users| && t.users[i].issuer == cfg.issuer ensures Account(t', t.users[i]) {
      if i != k {
        assert !Clash(t.users[i], t.users[k]) || !Clash(t.users[k], t.users[i]);
        assert Account(t, t.users[i]);
      }
    }
  }

  // Under the invariant a registration that gets past the credential check finds no user of that subject.
  lemma NoUserYet(cfg: Config, t: Tables, email: string)
    requires Invariant(cfg, t) && email != ""
    requires var existing := FindUser(t.users, ByEmail(email, cfg.issuer));
      existing.None? || existing.value.id !in t.credentials
    ensures FindUser(t.users, BySubject(cfg.issuer, email)).None?
  {
    var found := FindUser(t.users, BySubject(cfg.issuer, email));
    if found.Some? {
      var i :| 0 <= i < |t.users| && t.users[i] == found.value;
      assert Account(t, t.users[i]);
      FindUnique(t.users, ByEmail(email, cfg.issuer), i);
      assert false;
    }
  }

  lemma IssueKeeps(cfg: Config, t: Tables, now: Time, user: Uuid, kind: TokenKind, raw: seq<Byte>, inTx: bool,
                   faults: Faults)
    requires Invariant(cfg, t) && (kind.PasswordReset? ==> LocalUser(cfg, t.users, user))
    ensures Invariant(cfg, IssueToken(cfg, t, now, user, kind, raw, inTx, faults).0)
  {
    var t' := IssueToken(cfg, t, now, user, kind, raw, inTx, faults).0;
    forall i | 0 <= i < |t'.tokens| ensures TokenOwnerFits(cfg, t.users, t'.tokens[i]) {
      if i < |t.tokens| { assert TokenOwnerFits(cfg, t.users, t.tokens[i]); }
    }
    Frame(cfg, t, t');
  }

  // A successful registration creates the user, stores the hash and, with a callback, issues a token.
  lemma RegisterUnfolds(cfg: Config, t: Tables, now: Time, req: RegisterRequest, hash: string,
                        ids: FreshIds, mail: Option<Verification>, faults: Faults)
    requires Invariant(cfg, t) && req.email != ""
    requires RegisterTx(cfg, t, now, req, hash, ids, mail, faults).Ok?
    ensures var u := NewUser(LocalIdentity(cfg, req), ids, now);
      var (t1, r) := Create(cfg.tenantName, t, now, u, ids, true, faults);
      var t2 := t1.(credentials := t1.credentials[u.id := hash]);
      var (t', ref, _) := RegisterTx(cfg, t, now, req, hash, ids, mail, faults).value;
      && r == Ok(ref) && ref == RefOf(u)
      && match mail
         case None => t' == t2
         case Some(v) =>
           && t' == IssueToken(cfg, t2, now, u.id, EmailVerification, v.raw, true, faults).0
           && IssueToken(cfg, t2, now, u.id, EmailVerification, v.raw, true, faults).1.Ok?
  {
    NoUserYet(cfg, t, req.email);
    assert RegisterTx(cfg, t, now, req, hash, ids, mail, faults).Ok?;
    var u := NewUser(LocalIdentity(cfg, req), ids, now);
    assert Provision(cfg.tenantName, t, now, LocalIdentity(cfg, req), ids, true, faults)
        == Create(cfg.tenantName, t, now, u, ids, true, faults);
  }

  lemma NewIdHasNoCredential(cfg: Config, t: Tables, u: User)
    requires Invariant(cfg, t) && !ClashesWithSome(t.users, u)
    ensures u.id !in t.credentials
  {
    if u.id in t.credentials {
      assert LocalUser(cfg, t.users, u.id);
      var i :| 0 <= i < |t.users| && t.users[i].id == u.id && t.users[i].issuer == cfg.issuer;
      assert t.users[i] in t.users;
      NewIdIsNew(t.users, u, u.id);
    }
  }

  lemma CreateChecksClash(name: string, t: Tables, now: Time, u: User, ids: FreshIds, faults: Faults)
    requires Create(name, t, now, u, ids, true, faults).1.Ok?
    ensures !ClashesWithSome(t.users, u)
    ensures Create(name, t, now, u, ids, true, faults).0.attempts == t.attempts
  {}

  // The new account a successful registration leaves, with the password hash it stored.
  lemma RegisterCreates(cfg: Config, t: Tables, now: Time, req: RegisterRequest, hash: string,
                        ids: FreshIds, mail: Option<Verification>, faults: Faults)
    requires Invariant(cfg, t) && req.email != ""
    requires RegisterTx(cfg, t, now, req, hash, ids, mail, faults).Ok?
    ensures var (t', ref, _) := RegisterTx(cfg, t, now, req, hash, ids, mail, faults).value;
      var u := NewUser(LocalIdentity(cfg, req), ids, now);
      && Invariant(cfg, t')
      && t'.users == t.users + [u] && ref == RefOf(u)
      && t'.credentials == t.credentials[u.id := hash] && u.id !in t.credentials
      && t'.attempts == t.attempts
  {
    RegisterUnfolds(cfg, t, now, req, hash, ids, mail, faults);
    var u := NewUser(LocalIdentity(cfg, req), ids, now);
    CreateLocalPrepares(cfg, t, now, u, ids, faults);
    CreateChecksClash(cfg.tenantName, t, now, u, ids, faults);
    NewIdHasNoCredential(cfg, t, u);
    var t1 := Create(cfg.tenantName, t, now, u, ids, true, faults).0;
    assert t1.users[|t.users|] == u;
    CredentialCompletes(cfg, t1, u, hash);
    if mail.Some? {
      var t2 := t1.(credentials := t1.credentials[u.id := hash]);
      IssueKeeps(cfg, t2, now, u.id, EmailVerification, mail.value.raw, true, faults);
    }
  }

  // ----- every operation, every run -----

  lemma RegisterKeeps(cfg: Config, hasher: PasswordHasher, t: Tables, now: Time, req: RegisterRequest,
                      salt: seq<Byte>, ids: FreshIds, mail: Option<Verification>, faults: Faults)
    requires Invariant(cfg, t)
    ensures Invariant(cfg, Register(cfg, hasher, t, now, req, salt, ids, mail, faults).0)
  {
    if Register(cfg, hasher, t, now, req, salt, ids, mail, faults).0 != t {
      RegisterCreates(cfg, t, now, req, hasher.hash(salt, req.password), ids, mail, faults);
    }
  }

  lemma RequestKeeps(cfg: Config, w: World, op: Op)
    requires Invariant(cfg, w.db) && (op.RequestReset? || op.RequestVerification?)
    ensures Invariant(cfg, Apply(cfg, w, op).0)
  {
    if op.RequestVerification? {
      IssueKeeps(cfg, w.db, w.now, op.user, EmailVerification, op.raw, false, op.faults);
    } else {
      var u := FindUser(w.db.users, ByEmail(op.email, cfg.issuer));
      if u.Some? {
        var k :| 0 <= k < |w.db.users| && w.db.users[k] == u.value;
        IssueKeeps(cfg, w.db, w.now, u.value.id, PasswordReset, op.raw, false, op.faults);
      }
    }
  }

  lemma ConfirmIsMild(cfg: Config, t: Tables, now: Time, token: string, faults: Faults)
    ensures Mild(t, VerifyEmail(cfg, t, now, token, faults).0)
  {}

  lemma MildOps(cfg: Config, w: World, op: Op)
    requires op.Login? || op.Change? || op.Reset? || op.Confirm?
    ensures Mild(w.db, Apply(cfg, w, op).0)
  {
    match op {
      case Login(email, password, salt, faults) =>
        LoginIsMild(cfg, w.hasher, w.db, w.now, email, password, salt, faults);
      case Change(user, oldPassword, newPassword, salt, faults) =>
        ChangeIsMild(cfg, w.hasher, w.db, w.now, user, oldPassword, newPassword, salt, faults);
      case Reset(token, newPassword, salt, faults) =>
        ResetIsMild(cfg, w.hasher, w.db, w.now, token, newPassword, salt, faults);
      case Confirm(token, faults) =>
        ConfirmIsMild(cfg, w.db, w.now, token, faults);
    }
  }

  lemma StepKeepsInvariant(cfg: Config, w: World, op: Op)
    requires Invariant(cfg, w.db) && Allowed(cfg, w, op)
    ensures Invariant(cfg, Apply(cfg, w, op).0)
  {
    if op.FederatedLogin? {
      CreateForeignKeeps(cfg, w.db, w.now, NewUser(op.identity, op.ids, w.now), op.ids, op.faults);
    } else if op.SignUp? {
      RegisterKeeps(cfg, w.hasher, w.db, w.now, op.req, op.salt, op.ids, op.mail, op.faults);
    } else if op.RequestReset? || op.RequestVerification? {
      RequestKeeps(cfg, w, op);
    } else if op.Login? || op.Change? || op.Reset? || op.Confirm? {
      MildOps(cfg, w, op);
      MildKeeps(cfg, w.db, Apply(cfg, w, op).0);
    }
  }

  lemma KeepsInvariantAt(cfg: Config, r: Run, i: nat)
    requires IsRun(cfg, r) && i < |r.ops| && Invariant(cfg, r.worlds[i].db)
    ensures Invariant(cfg, r.worlds[i + 1].db)
  {
    assert StepAt(cfg, r, i);
    StepKeepsInvariant(cfg, r.worlds[i], r.ops[i]);
  }

  lemma {:induction false} RunKeepsInvariant(cfg: Config, r: Run, n: nat)
    requires IsRun(cfg, r) && n <= |r.ops|
    ensures Invariant(cfg, r.worlds[n].db)
  {
    if n > 0 {
      RunKeepsInvariant(cfg, r, n - 1);
      KeepsInvariantAt(cfg, r, n - 1);
    }
  }
}
