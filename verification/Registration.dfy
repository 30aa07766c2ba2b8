// Registration over whole runs: when exactly it succeeds, why it fails, and which rows it leaves.
module Registration {
  import opened Wrappers
  import opened Base64
  import opened Hasher
  import opened Schema
  import opened StoreSpec
  import opened Runs
  import opened Accounts
  import opened PasswordMap
  import opened Provisioning

  // The policy accepts the password: judged beside the email and, if there is one, the username.
  predicate AcceptsNew(cfg: Config, req: RegisterRequest) {
    cfg.policy(req.password, if req.username == "" then [req.email] else [req.email, req.username])
  }

  predicate Presentable(cfg: Config, req: RegisterRequest) {
    req.email != "" && req.password != "" && AcceptsNew(cfg, req)
  }

  // Some local account has the email.
  ghost predicate Taken(cfg: Config, w: World, email: string) {
    exists u :: u in w.db.users && u.issuer == cfg.issuer && u.email == email
  }

  // Nobody has the generated identifier.
  predicate FreeId(w: World, id: Uuid) { forall u | u in w.db.users :: u.id != id }

  // The calls a registration depends on: a tenant is added if there is none, a token for email verification.
  function TxPoints(w: World, mail: Option<Verification>): Faults {
    {LookupUser, ResolveUser, ReadFirstTenant, AddUser, AddMembership, ReadTenantName, ReadMemberships, WriteCredential}
    + (if w.db.tenants == [] then {AddTenant} else {})
    + (if mail.Some? then {InvalidateOld, GenerateBytes, InsertToken} else {})
    + (if mail.Some? && mail.value.hasSender then {SendMail} else {})
  }

  function RegisterPoints(w: World, mail: Option<Verification>): Faults {
    {GenerateSalt, BeginTx, CommitTx} + TxPoints(w, mail)
  }

  lemma TakenExactly(cfg: Config, w: World, email: string)
    ensures Taken(cfg, w, email) <==> FindUser(w.db.users, ByEmail(email, cfg.issuer)).Some?
  {
    var found := FindUser(w.db.users, ByEmail(email, cfg.issuer));
    if found.Some? { assert found.value in w.db.users; }
    if u :| u in w.db.users && u.issuer == cfg.issuer && u.email == email {
      assert Matches(u, ByEmail(email, cfg.issuer));
    }
  }

  lemma WordsOfRequest(cfg: Config, req: RegisterRequest)
    ensures AcceptsNew(cfg, req) == cfg.policy(req.password, RequestWords(req))
  {
    if req.username != "" { assert RequestWords(req) == [req.email, req.username]; }
    else { assert RequestWords(req) == [req.email]; }
  }

  lemma TakenHasCredential(cfg: Config, t: Tables, email: string)
    requires Invariant(cfg, t) && FindUser(t.users, ByEmail(email, cfg.issuer)).Some?
    ensures FindUser(t.users, ByEmail(email, cfg.issuer)).value.id in t.credentials
  {
    var u := FindUser(t.users, ByEmail(email, cfg.issuer)).value;
    var i :| 0 <= i < |t.users| && t.users[i] == u;
    assert Account(t, t.users[i]);
  }

  // A new account clashes with somebody exactly for its identifier.
  lemma NewClash(cfg: Config, w: World, req: RegisterRequest, ids: FreshIds)
    requires Invariant(cfg, w.db) && req.email != "" && !Taken(cfg, w, req.email)
    ensures FindUser(w.db.users, BySubject(cfg.issuer, req.email)).None?
    ensures ClashesWithSome(w.db.users, NewUser(LocalIdentity(cfg, req), ids, w.now)) <==> !FreeId(w, ids.user)
  {
    TakenExactly(cfg, w, req.email);
    NoUserYet(cfg, w.db, req.email);
    forall v | v in w.db.users
      ensures Clash(v, NewUser(LocalIdentity(cfg, req), ids, w.now)) <==> v.id == ids.user
    {
      assert !Matches(v, BySubject(cfg.issuer, req.email)) && !Matches(v, ByEmail(req.email, cfg.issuer));
    }
  }

  // Creation succeeds exactly when no call fails and nobody clashes.
  lemma CreateAnswers(name: string, t: Tables, now: Time, u: User, ids: FreshIds, faults: Faults)
    ensures Create(name, t, now, u, ids, true, faults).1.Ok? <==>
            && faults !! {ReadFirstTenant, AddUser, AddMembership, ReadTenantName, ReadMemberships}
            && (t.tenants == [] ==> AddTenant !in faults) && !ClashesWithSome(t.users, u)
    ensures faults == {} && ClashesWithSome(t.users, u) ==>
              Create(name, t, now, u, ids, true, faults).1 == Err(ProvisionError.Unique)
    ensures Create(name, t, now, u, ids, true, faults).1.Ok? ==>
              HasUser(Create(name, t, now, u, ids, true, faults).0.users, u.id)
  {
    var (t1, tenant) := FirstTenantOrCreate(name, t, ids, faults);
    if tenant.Ok? && !ClashesWithSome(t1.users, u) {
      assert HasTenant(t1.tenants, tenant.value) by {
        if t.tenants != [] { assert t.tenants[0] in t.tenants; } else { assert t1.tenants[0] in t1.tenants; }
      }
      var t2 := t1.(users := t1.users + [u]);
      assert t2.users[|t1.users|] == u;
      UpsertGivesMembership(t2.memberships, t2.tenants, Membership(u.id, tenant.value, "member"));
    }
  }

  lemma IssueAnswers(cfg: Config, t: Tables, now: Time, user: Uuid, kind: TokenKind, raw: seq<Byte>, faults: Faults)
    requires HasUser(t.users, user)
    ensures IssueToken(cfg, t, now, user, kind, raw, true, faults).1.Ok? <==>
            faults !! {InvalidateOld, GenerateBytes, InsertToken}
  {}

  // The transaction of a registration for an email that is not taken.
  lemma TxAnswers(cfg: Config, w: World, req: RegisterRequest, hash: string, ids: FreshIds, mail: Option<Verification>,
                  faults: Faults)
    requires Invariant(cfg, w.db) && req.email != "" && !Taken(cfg, w, req.email)
    ensures var r := RegisterTx(cfg, w.db, w.now, req, hash, ids, mail, faults);
      && (r.Ok? <==> FreeId(w, ids.user) && faults !! TxPoints(w, mail))
      && (faults == {} && !FreeId(w, ids.user) ==> r == Err(EmailAlreadyRegistered))
  {
    TakenExactly(cfg, w, req.email);
    NewClash(cfg, w, req, ids);
    var u := NewUser(LocalIdentity(cfg, req), ids, w.now);
    CreateAnswers(cfg.tenantName, w.db, w.now, u, ids, faults);
    var (t1, r) := Create(cfg.tenantName, w.db, w.now, u, ids, true, faults);
    assert Provision(cfg.tenantName, w.db, w.now, LocalIdentity(cfg, req), ids, true, faults) ==
           if ResolveUser in faults then (w.db, Err(Other)) else (t1, r);
    if mail.Some? && r.Ok? {
      IssueAnswers(cfg, t1.(credentials := t1.credentials[u.id := hash]), w.now, u.id, EmailVerification,
                   mail.value.raw, faults);
    }
  }

  // Of a presentable registration for such an email.
  lemma NewcomerAnswers(cfg: Config, w: World, op: Op)
    requires Invariant(cfg, w.db) && op.SignUp? && Presentable(cfg, op.req) && !Taken(cfg, w, op.req.email)
    ensures Apply(cfg, w, op).1.Registered? <==> FreeId(w, op.ids.user) && op.faults !! RegisterPoints(w, op.mail)
    ensures op.faults == {} && !FreeId(w, op.ids.user) ==> Apply(cfg, w, op).1 == Failed(EmailAlreadyRegistered)
  {
    WordsOfRequest(cfg, op.req);
    TxAnswers(cfg, w, op.req, w.hasher.hash(op.salt, op.req.password), op.ids, op.mail, op.faults);
  }

  // The reply to a registration, and the tables it leaves: it succeeds exactly when email and password are there,
  // the policy accepts the password, no local account has the email, the generated identifier is free and
  // no call it depends on fails. Otherwise it fails, for the stated reason, and leaves the tables as they were.
  ghost predicate RepliesRight(cfg: Config, w: World, op: Op, reply: Reply, after: Tables)
    requires op.SignUp?
  {
    var newcomer := !Taken(cfg, w, op.req.email) && FreeId(w, op.ids.user);
    && (reply.Registered? <==> Presentable(cfg, op.req) && newcomer && op.faults !! RegisterPoints(w, op.mail))
    && (!Presentable(cfg, op.req) ==> reply == Failed(PolicyViolation))
    && (op.faults == {} && Presentable(cfg, op.req) && !newcomer ==> reply == Failed(EmailAlreadyRegistered))
    && (!reply.Registered? ==> reply.Failed? && after == w.db)
  }

  lemma RegisterAnswers(cfg: Config, w: World, op: Op)
    requires Invariant(cfg, w.db) && op.SignUp?
    ensures RepliesRight(cfg, w, op, Apply(cfg, w, op).1, Apply(cfg, w, op).0)
  {
    WordsOfRequest(cfg, op.req);
    if Presentable(cfg, op.req) {
      if Taken(cfg, w, op.req.email) {
        TakenExactly(cfg, w, op.req.email);
        TakenHasCredential(cfg, w.db, op.req.email);
      } else {
        NewcomerAnswers(cfg, w, op);
      }
    }
  }

  lemma RegisterAnswersAt(cfg: Config, r: Run, n: nat)
    requires IsRun(cfg, r) && n < |r.ops| && r.ops[n].SignUp?
    ensures RepliesRight(cfg, r.worlds[n], r.ops[n], r.replies[n], r.worlds[n + 1].db)
  {
    RunKeepsInvariant(cfg, r, n);
    assert StepAt(cfg, r, n);
    RegisterAnswers(cfg, r.worlds[n], r.ops[n]);
  }

  // In every run: the reply is right, and a success sets the password of the new account and no other.
  lemma RegisterRefines(cfg: Config, r: Run, n: nat)
    requires IsRun(cfg, r) && n < |r.ops| && r.ops[n].SignUp?
    ensures RepliesRight(cfg, r.worlds[n], r.ops[n], r.replies[n], r.worlds[n + 1].db)
    ensures var op, reply, m := r.ops[n], r.replies[n], Passwords(cfg, r, n);
      && (reply.Registered? ==> reply.ref == UserRef(op.ids.user, cfg.issuer, op.req.email))
      && (reply.Registered? && op.mail.None? ==> reply.plaintext == "")
      && Passwords(cfg, r, n + 1) == if reply.Registered? then m[op.ids.user := op.req.password] else m
  {
    RegisterAnswersAt(cfg, r, n);
    if r.replies[n].Registered? { RegisteredAs(cfg, r, n); }
  }

  lemma RegisteredAs(cfg: Config, r: Run, n: nat)
    requires IsRun(cfg, r) && n < |r.ops| && r.ops[n].SignUp? && r.replies[n].Registered?
    ensures r.replies[n].ref == UserRef(r.ops[n].ids.user, cfg.issuer, r.ops[n].req.email)
    ensures r.ops[n].mail.None? ==> r.replies[n].plaintext == ""
  {
    assert StepAt(cfg, r, n);
    RunKeepsInvariant(cfg, r, n);
    var w, op := r.worlds[n], r.ops[n];
    RegisterCreates(cfg, w.db, w.now, op.req, w.hasher.hash(op.salt, op.req.password), op.ids, op.mail, op.faults);
  }

  // The rows of a new account: the user, not verified, and one membership of the first tenant, as a member.
  lemma RegisteredRows(cfg: Config, r: Run, n: nat)
    requires IsRun(cfg, r) && n < |r.ops| && r.ops[n].SignUp? && r.replies[n].Registered?
    ensures var before, after, op := r.worlds[n].db, r.worlds[n + 1].db, r.ops[n];
      && after.users == before.users + [User(op.ids.user, op.req.email, false,
           if op.req.username == "" then None else Some(op.req.username),
           if op.req.name == "" then None else Some(op.req.name),
           cfg.issuer, op.req.email, r.worlds[n].now)]
      && after.tenants == TenantsAfter(cfg.tenantName, before, op.ids)
      && after.memberships == before.memberships + [Membership(op.ids.user, after.tenants[0].id, "member")]
      && after.attempts == before.attempts
  {
    RunKeepsInvariant(cfg, r, n);
    RunRowsFit(cfg, r, n);
    assert StepAt(cfg, r, n);
    SignUpRows(cfg, r.worlds[n], r.ops[n]);
  }
}
