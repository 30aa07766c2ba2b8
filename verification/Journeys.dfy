// What the store is for, as runs that exist: after any history a new account can be registered, confirmed
// and logged into. So none of the theorems about runs holds for want of runs.
module Journeys {
  import opened Wrappers
  import opened Base64
  import opened Hasher
  import opened Token
  import opened Schema
  import opened StoreSpec
  import opened Runs
  import opened Accounts
  import opened TokenHistory
  import opened PasswordMap
  import opened Unlock
  import opened EmailVerification

  // A registration with email verification that has nothing against it: the policy accepts the password,
  // the email is not registered, the generated id is new, and no call fails.
  ghost predicate Welcome(cfg: Config, w: World, op: Op) {
    && op.SignUp? && op.faults == {} && op.mail.Some?
    && op.req.email != "" && op.req.password != "" && cfg.policy(op.req.password, RequestWords(op.req))
    && FindUser(w.db.users, ByEmail(op.req.email, cfg.issuer)).None?
    && !HasUser(w.db.users, op.ids.user)
  }

  function NewAccount(cfg: Config, w: World, op: Op): User
    requires op.SignUp?
  {
    NewUser(LocalIdentity(cfg, op.req), op.ids, w.now)
  }

  // ----- registration -----

  lemma NoClash(cfg: Config, w: World, op: Op)
    requires Invariant(cfg, w.db) && Welcome(cfg, w, op)
    ensures !ClashesWithSome(w.db.users, NewAccount(cfg, w, op))
    ensures FindUser(w.db.users, BySubject(cfg.issuer, op.req.email)).None?
  {
    NoUserYet(cfg, w.db, op.req.email);
    forall v | v in w.db.users ensures !Clash(v, NewAccount(cfg, w, op)) {
      assert !Matches(v, BySubject(cfg.issuer, op.req.email)) && !Matches(v, ByEmail(op.req.email, cfg.issuer));
    }
  }

  lemma CreateSucceeds(name: string, t: Tables, now: Time, u: User, ids: FreshIds)
    requires !ClashesWithSome(t.users, u)
    ensures Create(name, t, now, u, ids, true, {}).1 == Ok(RefOf(u))
    ensures u in Create(name, t, now, u, ids, true, {}).0.users
  {
    var (t1, tenant) := FirstTenantOrCreate(name, t, ids, {});
    assert tenant.Ok? && HasTenant(t1.tenants, tenant.value) by {
      if t.tenants != [] {
        assert t.tenants[0] in t.tenants;
      } else {
        assert t1.tenants == [Tenant(ids.tenant, name)];
      }
    }
    var t2 := t1.(users := t1.users + [u]);
    assert t2.users[|t1.users|] == u;
    UpsertGivesMembership(t2.memberships, t2.tenants, Membership(u.id, tenant.value, "member"));
  }

  lemma SignUpSucceeds(cfg: Config, w: World, op: Op)
    requires Invariant(cfg, w.db) && Welcome(cfg, w, op)
    ensures Apply(cfg, w, op).1 ==
            Registered(RefOf(NewAccount(cfg, w, op)), GenerateToken(cfg.sha, op.mail.value.raw).plaintext)
  {
    var u := NewAccount(cfg, w, op);
    NoClash(cfg, w, op);
    CreateSucceeds(cfg.tenantName, w.db, w.now, u, op.ids);
    assert Provision(cfg.tenantName, w.db, w.now, LocalIdentity(cfg, op.req), op.ids, true, {})
        == Create(cfg.tenantName, w.db, w.now, u, op.ids, true, {});
  }

  // ----- login -----

  lemma {:induction false} NoFailures(attempts: seq<Attempt>, user: Uuid, since: Time)
    requires forall i | 0 <= i < |attempts| :: attempts[i].user != user
    ensures CountRecentFailures(attempts, user, since) == 0
  {
    if attempts != [] { NoFailures(attempts[..|attempts| - 1], user, since); }
  }

  // Attempts belong to users.
  lemma {:induction false} AttemptsHaveUsers(cfg: Config, r: Run, n: nat, x: nat)
    requires IsRun(cfg, r) && n <= |r.ops| && x < |r.worlds[n].db.attempts|
    ensures HasUser(r.worlds[n].db.users, r.worlds[n].db.attempts[x].user)
  {
    AttemptsAt(cfg, r, n - 1);
    UsersAt(cfg, r, n - 1);
    var before, after := r.worlds[n - 1].db, r.worlds[n].db;
    if x < |before.attempts| {
      AttemptsHaveUsers(cfg, r, n - 1, x);
      assert after.attempts[x] == before.attempts[x];
    }
    UsersStay(cfg, before.users, after.users, after.attempts[x].user);
  }

  lemma LoginSucceeds(cfg: Config, w: World, u: User, op: Op)
    requires op.Login? && op.faults == {} && FindUser(w.db.users, ByEmail(op.email, cfg.issuer)) == Some(u)
    requires !Locked(cfg, w.db, u.id, w.now) && (cfg.requireVerified ==> u.emailVerified)
    requires u.id in w.db.credentials && w.hasher.verify(op.password, w.db.credentials[u.id]) == Verdict(true, false)
    ensures Apply(cfg, w, op).1 == LoggedIn(RefOf(u))
  {}

  // ----- the journey -----

  // The run `r`, then the registration, the confirmation with the token it answered, and a login.
  function Journey(cfg: Config, r: Run, signUp: Op, salt: seq<Byte>): Run
    requires |r.worlds| > 0 && signUp.SignUp? && signUp.mail.Some?
  {
    var token := GenerateToken(cfg.sha, signUp.mail.value.raw).plaintext;
    var confirm, login := Confirm(token, {}), Login(signUp.req.email, signUp.req.password, salt, {});
    Extend(cfg, Extend(cfg, Extend(cfg, r, signUp), confirm), login)
  }

  lemma SignedUp(cfg: Config, r: Run, op: Op)
    requires IsRun(cfg, r) && Allowed(cfg, r.worlds[|r.ops|], op) && Welcome(cfg, r.worlds[|r.ops|], op)
    ensures var w, r1 := r.worlds[|r.ops|], Extend(cfg, r, op);
      var w1, u := r1.worlds[|r1.ops|], NewAccount(cfg, w, op);
      && IsRun(cfg, r1)
      && r1.replies[|r.ops|] == Registered(RefOf(u), GenerateToken(cfg.sha, op.mail.value.raw).plaintext)
      && w1.now == w.now && w1.hasher == w.hasher && w1.hashing == w.hashing
      && w1.db.users == w.db.users + [u] && w1.db.attempts == w.db.attempts
      && u.id in w1.db.credentials && w1.db.credentials[u.id] == w.hasher.hash(op.salt, op.req.password)
  {
    RunsExtend(cfg, r, op);
    RunKeepsInvariant(cfg, r, |r.ops|);
    var w := r.worlds[|r.ops|];
    SignUpSucceeds(cfg, w, op);
    RegisterCreates(cfg, w.db, w.now, op.req, w.hasher.hash(op.salt, op.req.password), op.ids, op.mail, op.faults);
  }

  // The confirmation right after it completes, and marks the new account as verified.
  lemma Confirmed(cfg: Config, r: Run, op: Op, r1: Run, r2: Run)
    requires IsRun(cfg, r) && Allowed(cfg, r.worlds[|r.ops|], op) && Welcome(cfg, r.worlds[|r.ops|], op)
    requires cfg.verifyExpiry > 0 && r1 == Extend(cfg, r, op)
    requires r2 == Extend(cfg, r1, Confirm(GenerateToken(cfg.sha, op.mail.value.raw).plaintext, {}))
    ensures IsRun(cfg, r2) && r2.replies[|r1.ops|] == Completed
    ensures var w, w2 := r.worlds[|r.ops|], r2.worlds[|r2.ops|];
      var u := NewAccount(cfg, w, op);
      && w2.now == w.now && w2.hasher == w.hasher && w2.hashing == w.hashing
      && w2.db.users == MarkVerified(w.db.users + [u], u.id) && w2.db.attempts == w.db.attempts
      && u.id in w2.db.credentials && w2.db.credentials[u.id] == w.hasher.hash(op.salt, op.req.password)
  {
    SignedUp(cfg, r, op);
    var k, u := |r1.ops|, NewAccount(cfg, r.worlds[|r.ops|], op);
    var confirm := Confirm(GenerateToken(cfg.sha, op.mail.value.raw).plaintext, {});
    RunsExtend(cfg, r1, confirm);
    var hash := cfg.sha(confirm.token);
    assert IssuedAt(cfg, r2, |r.ops|, u.id, hash, EmailVerification);
    assert Traces(cfg, r2, |r.ops|, k, u.id, hash, EmailVerification);
    ConfirmExactly(cfg, r2, k);
    TracesConsume(cfg, r2, |r.ops|, k, u.id, hash, EmailVerification);
    ConfirmMarks(cfg, r2, k, u.id);
  }

  lemma ConfirmMarks(cfg: Config, r: Run, k: nat, user: Uuid)
    requires IsRun(cfg, r) && k < |r.ops| && r.ops[k].Confirm? && r.ops[k].faults == {}
    requires TokenOwner(r.worlds[k].db.tokens, cfg.sha(r.ops[k].token), TokenKind.EmailVerification, r.worlds[k].now)
          == Some(user)
    ensures var w, w' := r.worlds[k], r.worlds[k + 1];
      && w'.db.users == MarkVerified(w.db.users, user) && w'.db.attempts == w.db.attempts
      && w'.db.credentials == w.db.credentials
      && w'.now == w.now && w'.hasher == w.hasher && w'.hashing == w.hashing
  {
    assert StepAt(cfg, r, k);
  }

  lemma FoundVerified(cfg: Config, users: seq<User>, u: User)
    requires FindUser(users, ByEmail(u.email, cfg.issuer)).None? && u.issuer == cfg.issuer
    ensures FindUser(MarkVerified(users + [u], u.id), ByEmail(u.email, cfg.issuer)) == Some(u.(emailVerified := true))
  {
    var marked := MarkVerified(users + [u], u.id);
    assert forall i | 0 <= i < |users| :: users[i] in users && !Matches(users[i], ByEmail(u.email, cfg.issuer));
    FindLast(marked, ByEmail(u.email, cfg.issuer));
  }

  lemma {:induction false} FindLast(users: seq<User>, key: UserKey)
    requires users != [] && Matches(users[|users| - 1], key)
    requires forall i | 0 <= i < |users| - 1 :: !Matches(users[i], key)
    ensures FindUser(users, key) == Some(users[|users| - 1])
  {
    if |users| > 1 { FindLast(users[1..], key); }
  }

  lemma NewAccountIsOpen(cfg: Config, r: Run, user: Uuid, t: Tables, now: Time)
    requires IsRun(cfg, r) && cfg.maxAttempts >= 1 && !HasUser(r.worlds[|r.ops|].db.users, user)
    requires t.attempts == r.worlds[|r.ops|].db.attempts
    ensures !Locked(cfg, t, user, now)
  {
    forall x | 0 <= x < |t.attempts| ensures t.attempts[x].user != user {
      AttemptsHaveUsers(cfg, r, |r.ops|, x);
    }
    NoFailures(t.attempts, user, now - cfg.window);
  }

  // After any history, whoever is welcome registers, confirms and logs in.
  lemma WelcomeUsersLogIn(cfg: Config, r: Run, op: Op, salt: seq<Byte>)
    requires IsRun(cfg, r) && Allowed(cfg, r.worlds[|r.ops|], op) && Welcome(cfg, r.worlds[|r.ops|], op)
    requires HonoursKeyLength(cfg.argon) && cfg.verifyExpiry > 0 && cfg.maxAttempts >= 1
    requires |salt| == r.worlds[|r.ops|].hashing.saltLength
    ensures var n, u, longer := |r.ops|, NewAccount(cfg, r.worlds[|r.ops|], op), Journey(cfg, r, op, salt);
      && IsRun(cfg, longer) && |longer.ops| == n + 3
      && longer.replies[n].Registered? && longer.replies[n + 1] == Completed
      && longer.replies[n + 2] == LoggedIn(RefOf(u))
  {
    var w, n := r.worlds[|r.ops|], |r.ops|;
    var u := NewAccount(cfg, w, op);
    var r1 := Extend(cfg, r, op);
    var r2 := Extend(cfg, r1, Confirm(GenerateToken(cfg.sha, op.mail.value.raw).plaintext, {}));
    SignedUp(cfg, r, op);
    Confirmed(cfg, r, op, r1, r2);
    var w2 := r2.worlds[|r2.ops|];
    var login := Login(op.req.email, op.req.password, salt, {});
    RunsExtend(cfg, r2, login);
    FoundVerified(cfg, w.db.users, u);
    NewAccountIsOpen(cfg, r, u.id, w2.db, w2.now);
    HasherIsCurrent(cfg, r, n);
    VerifyOwnHash(cfg.argon, w.hashing, op.salt, op.req.password);
    LoginSucceeds(cfg, w2, u.(emailVerified := true), login);
  }
}
