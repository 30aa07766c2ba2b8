// email_verified over whole runs: for local accounts it is set by confirming a token issued to them, and stays set.
module EmailVerification {
  import opened Wrappers
  import opened Base64
  import opened Hasher
  import opened Schema
  import opened StoreSpec
  import opened Runs
  import opened Accounts
  import opened TokenHistory

  // Operation k is a successful VerifyEmail that consumed a token of this user.
  ghost predicate Confirms(cfg: Config, w: World, op: Op, reply: Reply, user: Uuid) {
    op.Confirm? && reply == Completed && ConsumedFor(cfg, w, op) == Some(user)
  }

  // Operation k logged this user in with a password.
  predicate LogsIn(op: Op, reply: Reply, user: Uuid) { op.Login? && reply.LoggedIn? && reply.ref.id == user }

  // A user's row changes only in its verified flag, if this operation confirms the user, and in the time of the
  // last login, if it logs the user in; at most one user is new, and a new local one is not verified.
  ghost predicate UsersStep(cfg: Config, w: World, op: Op, reply: Reply, us': seq<User>) {
    var us := w.db.users;
    && |us| <= |us'| <= |us| + 1
    && (forall i | 0 <= i < |us| ::
          us'[i] == us[i].(emailVerified := us[i].emailVerified || Confirms(cfg, w, op, reply, us[i].id),
                           lastLoginAt := if LogsIn(op, reply, us[i].id) then w.now else us[i].lastLoginAt))
    && (|us'| > |us| && us'[|us|].issuer == cfg.issuer ==> !us'[|us|].emailVerified)
  }

  lemma LogInUsers(cfg: Config, hasher: PasswordHasher, t: Tables, now: Time, u: User, password: string,
                   salt: seq<Byte>, needsRehash: bool, faults: Faults)
    ensures var (t', r) := LogIn(cfg, hasher, t, now, u, password, salt, needsRehash, faults);
      if r.Ok? then r.value.id == u.id && t'.users == TouchLogin(t.users, u.id, now) else t'.users == t.users
  {}

  lemma LoginUsers(cfg: Config, hasher: PasswordHasher, t: Tables, now: Time, email: string, password: string,
                   salt: seq<Byte>, faults: Faults)
    ensures var (t', r) := Authenticate(cfg, hasher, t, now, email, password, salt, faults);
      t'.users == if r.Ok? then TouchLogin(t.users, r.value.id, now) else t.users
  {
    var found := FindUser(t.users, ByEmail(email, cfg.issuer));
    if found.Some? && found.value.id in t.credentials {
      var verdict := hasher.verify(password, t.credentials[found.value.id]);
      if verdict.Verdict? && verdict.matched {
        LogInUsers(cfg, hasher, t, now, found.value, password, salt, verdict.needsRehash, faults);
      }
    }
  }

  lemma StoreKeepsUsers(cfg: Config, hasher: PasswordHasher, t: Tables, user: Uuid, newPassword: string,
                        salt: seq<Byte>, faults: Faults)
    ensures var r := StorePassword(cfg, hasher, t, user, newPassword, salt, faults); r.Ok? ==> r.value.users == t.users
  {}

  lemma PasswordOpsKeepUsers(cfg: Config, w: World, op: Op)
    requires op.Change? || op.Reset?
    ensures Apply(cfg, w, op).0.users == w.db.users
  {
    if op.Change? {
      StoreKeepsUsers(cfg, w.hasher, w.db, op.user, op.newPassword, op.salt, op.faults);
    } else {
      var t1 := w.db.(tokens := ConsumeTokens(w.db.tokens, cfg.sha(op.token), PasswordReset, w.now));
      var owner := TokenOwner(w.db.tokens, cfg.sha(op.token), PasswordReset, w.now);
      if owner.Some? { StoreKeepsUsers(cfg, w.hasher, t1, owner.value, op.newPassword, op.salt, op.faults); }
    }
  }

  lemma SignUpUsers(cfg: Config, w: World, op: Op)
    requires Invariant(cfg, w.db) && op.SignUp?
    ensures var us' := Apply(cfg, w, op).0.users;
      us' == w.db.users || us' == w.db.users + [NewUser(LocalIdentity(cfg, op.req), op.ids, w.now)]
  {
    if Apply(cfg, w, op).1.Registered? {
      RegisterCreates(cfg, w.db, w.now, op.req, w.hasher.hash(op.salt, op.req.password), op.ids, op.mail, op.faults);
    }
  }

  lemma FederatedUsers(cfg: Config, w: World, op: Op)
    requires op.FederatedLogin?
    ensures var us' := Apply(cfg, w, op).0.users;
      us' == w.db.users || us' == w.db.users + [NewUser(op.identity, op.ids, w.now)]
  {}

  lemma RequestUsers(cfg: Config, w: World, op: Op)
    requires op.RequestReset? || op.RequestVerification? || op.Tick? || op.Redeploy?
    ensures Apply(cfg, w, op).0.users == w.db.users
  {}

  lemma ConfirmUsers(cfg: Config, w: World, op: Op)
    requires op.Confirm?
    ensures UsersStep(cfg, w, op, Apply(cfg, w, op).1, Apply(cfg, w, op).0.users)
  {}

  lemma StepUsers(cfg: Config, w: World, op: Op)
    requires Invariant(cfg, w.db) && Allowed(cfg, w, op)
    ensures UsersStep(cfg, w, op, Apply(cfg, w, op).1, Apply(cfg, w, op).0.users)
  {
    if op.Confirm? { ConfirmUsers(cfg, w, op); }
    else if op.Login? { LoginUsers(cfg, w.hasher, w.db, w.now, op.email, op.password, op.salt, op.faults); }
    else if op.Change? || op.Reset? { PasswordOpsKeepUsers(cfg, w, op); }
    else if op.SignUp? { SignUpUsers(cfg, w, op); }
    else if op.FederatedLogin? { FederatedUsers(cfg, w, op); }
    else { RequestUsers(cfg, w, op); }
  }

  lemma UsersAt(cfg: Config, r: Run, i: nat)
    requires IsRun(cfg, r) && i < |r.ops|
    ensures UsersStep(cfg, r.worlds[i], r.ops[i], r.replies[i], r.worlds[i + 1].db.users)
    ensures var us, us' := r.worlds[i].db.users, r.worlds[i + 1].db.users;
      forall x | 0 <= x < |us| :: SameIdentity(us[x], us'[x])
  {
    RunKeepsInvariant(cfg, r, i);
    assert StepAt(cfg, r, i);
    StepUsers(cfg, r.worlds[i], r.ops[i]);
  }

  // Users stay where they are and a verified flag never goes back.
  lemma {:induction false} VerifiedStays(cfg: Config, r: Run, i: nat, j: nat, x: nat)
    requires IsRun(cfg, r) && i <= j <= |r.ops| && x < |r.worlds[i].db.users|
    ensures x < |r.worlds[j].db.users| && SameIdentity(r.worlds[i].db.users[x], r.worlds[j].db.users[x])
    ensures r.worlds[i].db.users[x].emailVerified ==> r.worlds[j].db.users[x].emailVerified
    decreases j
  {
    if i < j {
      VerifiedStays(cfg, r, i, j - 1, x);
      UsersAt(cfg, r, j - 1);
      assert SameIdentity(r.worlds[j - 1].db.users[x], r.worlds[j].db.users[x]);
    }
  }

  ghost predicate ConfirmedAt(cfg: Config, r: Run, k: nat, user: Uuid) {
    k < |r.ops| == |r.replies| && k < |r.worlds| && Confirms(cfg, r.worlds[k], r.ops[k], r.replies[k], user)
  }

  // A verified local account was confirmed.
  lemma {:induction false} VerifiedWasConfirmed(cfg: Config, r: Run, n: nat, x: nat) returns (k: nat)
    requires IsRun(cfg, r) && n <= |r.ops| && x < |r.worlds[n].db.users|
    requires r.worlds[n].db.users[x].issuer == cfg.issuer && r.worlds[n].db.users[x].emailVerified
    ensures k < n && ConfirmedAt(cfg, r, k, r.worlds[n].db.users[x].id)
  {
    UsersAt(cfg, r, n - 1);
    var us, us' := r.worlds[n - 1].db.users, r.worlds[n].db.users;
    assert x < |us|;
    assert SameIdentity(us[x], us'[x]);
    if us[x].emailVerified {
      k := VerifiedWasConfirmed(cfg, r, n - 1, x);
    } else {
      k := n - 1;
    }
  }

  // The confirmation used an unexpired token issued to that very user.
  lemma VerifiedByOwnToken(cfg: Config, r: Run, n: nat, x: nat)
    requires IsRun(cfg, r) && n <= |r.ops| && x < |r.worlds[n].db.users|
    requires r.worlds[n].db.users[x].issuer == cfg.issuer && r.worlds[n].db.users[x].emailVerified
    ensures exists k: nat, i: nat, hash ::
      && k < n && ConfirmedAt(cfg, r, k, r.worlds[n].db.users[x].id)
      && Traces(cfg, r, i, k, r.worlds[n].db.users[x].id, hash, EmailVerification)
  {
    var k := VerifiedWasConfirmed(cfg, r, n, x);
    var hash := cfg.sha(r.ops[k].token);
    ConsumptionTraces(cfg, r, k, hash, EmailVerification);
    var i: nat :| Traces(cfg, r, i, k, r.worlds[n].db.users[x].id, hash, EmailVerification);
  }

  lemma LoginNeedsVerified(cfg: Config, w: World, op: Op)
    requires cfg.requireVerified && op.Login? && Apply(cfg, w, op).1.LoggedIn?
    ensures var found := FindUser(w.db.users, ByEmail(op.email, cfg.issuer));
      found.Some? && found.value.emailVerified && Apply(cfg, w, op).1.ref == RefOf(found.value)
  {}

  // With RequireEmailVerification, whoever logs in has confirmed an unexpired token of theirs earlier in the run.
  lemma LoginWasConfirmed(cfg: Config, r: Run, n: nat)
    requires IsRun(cfg, r) && n < |r.ops| && cfg.requireVerified && r.ops[n].Login? && r.replies[n].LoggedIn?
    ensures exists k: nat, i: nat, hash ::
      && k < n && ConfirmedAt(cfg, r, k, r.replies[n].ref.id)
      && Traces(cfg, r, i, k, r.replies[n].ref.id, hash, EmailVerification)
  {
    assert StepAt(cfg, r, n);
    LoginNeedsVerified(cfg, r.worlds[n], r.ops[n]);
    var u := FindUser(r.worlds[n].db.users, ByEmail(r.ops[n].email, cfg.issuer)).value;
    var x :| 0 <= x < |r.worlds[n].db.users| && r.worlds[n].db.users[x] == u;
    VerifiedByOwnToken(cfg, r, n, x);
  }
}
