// auth/postgres_store.go and auth/password/store.go: the operations as the code runs them,
// statement by statement with early returns, each proved to do what StoreSpec says.
module Store {
  import opened Wrappers
  import opened Base64
  import opened Hasher
  import opened Token
  import opened Schema
  import Db = Database
  import opened StoreSpec

  class PostgresIdentityStore {
    const db: Db.Database
    const tenantName: string

    constructor (db: Db.Database, tenantName: string)
      ensures this.db == db && this.tenantName == tenantName
    {
      this.db, this.tenantName := db, tenantName;
    }

    method FirstTenantOrCreate(ids: FreshIds, faults: Faults) returns (r: Result<Uuid, ProvisionError>)
      modifies db
      ensures db.saved == old(db.saved)
      ensures (db.Contents(), r) == StoreSpec.FirstTenantOrCreate(tenantName, old(db.Contents()), ids,
        if old(db.aborted) then faults + {ReadFirstTenant} else faults)
      ensures r.Ok? ==> !db.aborted && HasTenant(db.tenants, r.value)
    {
      var first := db.GetFirstTenant(ReadFirstTenant in faults);
      match first {
        case Row(id) =>
          assert db.tenants[0] in db.tenants;
          return Ok(id);
        case Refused => return Err(Other);
        case NoRows =>
      }
      var inserted := db.InsertTenant(Tenant(ids.tenant, tenantName), AddTenant in faults);
      match inserted {
        case Done =>
          assert db.tenants[|db.tenants| - 1] == Tenant(ids.tenant, tenantName);
          return Ok(ids.tenant);
        case UniqueViolation => return Err(Unique);
        case Rejected => return Err(Other);
      }
    }

    // ListMemberships copies the rows into memberships one by one.
    method ListMemberships(user: Uuid, faults: Faults) returns (r: Result<seq<MembershipView>, ProvisionError>)
      modifies db`aborted
      ensures db.aborted == (old(db.aborted) || (ReadMemberships in faults && db.saved.Some?))
      ensures r == if ReadMemberships in faults || old(db.aborted) then Err(Other)
                   else Ok(MembershipsOf(db.memberships, db.tenants, user))
    {
      var rows := db.ListMemberships(user, ReadMemberships in faults);
      if !rows.Row? { return Err(Other); }
      var memberships := [];
      for i := 0 to |rows.value|
        invariant memberships == rows.value[..i]
      {
        var row := rows.value[i];
        memberships := memberships + [MembershipView(row.tenant, row.tenantName, row.role)];
      }
      assert rows.value[..|rows.value|] == rows.value;
      return Ok(memberships);
    }

    // A failure to read the tenant's name is ignored.
    method CreateMembership(user: Uuid, tenant: Uuid, role: string, faults: Faults) returns (ok: bool)
      modifies db
      ensures db.saved == old(db.saved)
      ensures ok ==
        (AddMembership !in faults && !old(db.aborted) && HasUser(db.users, user) && HasTenant(db.tenants, tenant))
      ensures db.Contents() == if ok
        then old(db.Contents()).(memberships := UpsertMembership(old(db.memberships), Membership(user, tenant, role)))
        else old(db.Contents())
      ensures ok ==> db.aborted == (ReadTenantName in faults && db.saved.Some?)
    {
      ok := db.UpsertTenantMembership(Membership(user, tenant, role), AddMembership in faults);
      if ok {
        var _ := db.GetTenantByID(tenant, ReadTenantName in faults);
      }
    }

    method ResolveOrProvisionUser(now: Time, identity: Identity, ids: FreshIds, faults: Faults)
      returns (r: Result<UserRef, ProvisionError>)
      modifies db
      ensures db.saved == old(db.saved)
      ensures (db.Contents(), r) ==
        Provision(tenantName, old(db.Contents()), now, identity, ids, old(db.saved).Some?,
                  if old(db.aborted) then faults + {ResolveUser} else faults)
      ensures r.Ok? ==> !db.aborted && HasUser(db.users, r.value.id)
    {
      var user := db.GetUser(BySubject(identity.issuer, identity.subject), ResolveUser in faults);
      match user {
        case Row(u) =>
          var memberships := ListMemberships(u.id, faults);
          if memberships.Err? { return Err(Other); }
          if |memberships.value| == 0 { return Err(Other); }
          return Ok(RefOf(u));
        case Refused => return Err(Other);
        case NoRows =>
      }
      var tenant := FirstTenantOrCreate(ids, faults);
      if tenant.Err? { return Err(tenant.error); }
      var username := identity.preferredUsername;
      if username == "" { username := identity.username; }
      var u := User(ids.user, identity.email, identity.emailVerified, TextOf(username), TextOf(identity.name),
                    identity.issuer, identity.subject, now);
      var created := db.InsertUser(u, AddUser in faults);
      if created.UniqueViolation? { return Err(Unique); }
      if created.Rejected? { return Err(Other); }
      assert db.users[|db.users| - 1] == u;
      var joined := CreateMembership(u.id, tenant.value, "member", faults);
      if !joined { return Err(Other); }
      var memberships := ListMemberships(u.id, faults);
      if memberships.Err? { return Err(Other); }
      if |memberships.value| == 0 { return Err(Other); }
      return Ok(RefOf(u));
    }
  }

  class PasswordIdentityStore {
    const db: Db.Database
    const inner: PostgresIdentityStore
    const cfg: Config
    const hasher: PasswordHasher

    constructor (db: Db.Database, cfg: Config, hasher: PasswordHasher)
      ensures this.db == db && this.cfg == cfg && this.hasher == hasher && Wired()
    {
      this.db, this.cfg, this.hasher := db, cfg, hasher;
      this.inner := new PostgresIdentityStore(db, cfg.tenantName);
    }

    predicate Wired() { inner.db == db && inner.tenantName == cfg.tenantName }

    method Register(now: Time, req: RegisterRequest, salt: seq<Byte>, ids: FreshIds, mail: Option<Verification>,
                    faults: Faults)
      returns (r: Result<(UserRef, string), Error>)
      requires Wired() && db.Idle()
      modifies db
      ensures db.Idle()
      ensures (db.Contents(), r) ==
        StoreSpec.Register(cfg, hasher, old(db.Contents()), now, req, salt, ids, mail, faults)
      ensures r.Err? ==> db.Contents() == old(db.Contents())
    {
      if req.email == "" || req.password == "" { return Err(PolicyViolation); }
      if !cfg.policy(req.password, RequestWords(req)) { return Err(PolicyViolation); }
      if GenerateSalt in faults { return Err(Internal); }
      var hash := hasher.hash(salt, req.password);
      var begun := db.Begin(BeginTx in faults);
      if !begun { return Err(Internal); }
      r := RegisterInTx(now, req, hash, ids, mail, faults);
      if r.Err? { db.Rollback(); return r; }
      var committed := db.Commit(CommitTx in faults);
      if !committed { return Err(Internal); }
    }

    method RegisterInTx(now: Time, req: RegisterRequest, hash: string, ids: FreshIds, mail: Option<Verification>,
                        faults: Faults)
      returns (r: Result<(UserRef, string), Error>)
      requires Wired() && db.saved.Some? && !db.aborted
      modifies db
      ensures db.saved == old(db.saved)
      ensures match RegisterTx(cfg, old(db.Contents()), now, req, hash, ids, mail, faults)
        case Err(e) => r == Err(e)
        case Ok((t, ref, token)) => r == Ok((ref, token)) && db.Contents() == t && !db.aborted
    {
      var existing := db.GetUser(ByEmail(req.email, cfg.issuer), LookupUser in faults);
      if existing.Row? {
        var cred := db.GetPasswordCredential(existing.value.id, ReadCredential in faults);
        if cred.Row? { return Err(EmailAlreadyRegistered); }
      }
      var provisioned := inner.ResolveOrProvisionUser(now, LocalIdentity(cfg, req), ids, faults);
      if provisioned.Err? {
        return if provisioned.error.Unique? then Err(EmailAlreadyRegistered) else Err(Internal);
      }
      var ref := provisioned.value;
      var stored := db.UpsertPasswordCredential(ref.id, hash, WriteCredential in faults);
      if !stored { return Err(Internal); }
      match mail {
        case None => return Ok((ref, ""));
        case Some(v) =>
          var token := BeforeCommit(now, ref.id, v, faults);
          if token.Err? { return Err(token.error); }
          return Ok((ref, token.value));
      }
    }

    // The callback of RegisterWithEmailVerification.
    method BeforeCommit(now: Time, user: Uuid, mail: Verification, faults: Faults) returns (r: Result<string, Error>)
      requires db.saved.Some? && !db.aborted
      modifies db
      ensures db.saved == old(db.saved)
      ensures var (t, token) :=
        IssueToken(cfg, old(db.Contents()), now, user, EmailVerification, mail.raw, true, faults);
        && db.Contents() == t
        && r == if token.Ok? && mail.hasSender && SendMail in faults then Err(Internal) else token
      ensures r.Ok? ==> !db.aborted
    {
      r := IssueTokenFor(now, user, EmailVerification, mail.raw, faults);
      if r.Ok? && mail.hasSender && SendMail in faults { return Err(Internal); }
    }

    // Shared by initiateEmailVerification and InitiatePasswordReset.
    method IssueTokenFor(now: Time, user: Uuid, kind: TokenKind, raw: seq<Byte>, faults: Faults)
      returns (r: Result<string, Error>)
      requires db.aborted ==> db.saved.Some?
      modifies db
      ensures db.saved == old(db.saved)
      ensures (db.Contents(), r) ==
        IssueToken(cfg, old(db.Contents()), now, user, kind, raw, old(db.saved).Some?,
                   if old(db.aborted) then faults + {InvalidateOld} else faults)
      ensures r.Ok? ==> !db.aborted
      ensures db.aborted ==> db.saved.Some?
    {
      var _ := db.InvalidateUserTokens(user, kind, now, InvalidateOld in faults);
      if GenerateBytes in faults { return Err(Internal); }
      var token := GenerateToken(cfg.sha, raw);
      var expiry := if kind.PasswordReset? then cfg.resetExpiry else cfg.verifyExpiry;
      var inserted := db.InsertAuthToken(TokenRow(user, token.hash, kind, now + expiry, None), InsertToken in faults);
      if !inserted { return Err(Internal); }
      return Ok(token.plaintext);
    }

    method Authenticate(now: Time, email: string, password: string, salt: seq<Byte>, faults: Faults)
      returns (r: Result<UserRef, Error>)
      requires db.Idle()
      modifies db
      ensures db.Idle()
      ensures (db.Contents(), r) ==
        StoreSpec.Authenticate(cfg, hasher, old(db.Contents()), now, email, password, salt, faults)
    {
      var found := db.GetUser(ByEmail(email, cfg.issuer), LookupUser in faults);
      if found.NoRows? { return Err(InvalidCredentials); }
      if found.Refused? { return Err(Internal); }
      var user := found.value;
      var begun := db.Begin(BeginTx in faults);
      if !begun { return Err(Internal); }
      var failed := db.CountRecentFailedAttempts(user.id, now - cfg.window, CountAttempts in faults);
      if !failed.Row? { db.Rollback(); return Err(Internal); }
      if IsLockedOut(failed.value, cfg.maxAttempts) { db.Rollback(); return Err(AccountLocked); }
      var cred := db.GetPasswordCredential(user.id, ReadCredential in faults);
      if cred.NoRows? { db.Rollback(); return Err(InvalidCredentials); }
      if cred.Refused? { db.Rollback(); return Err(Internal); }
      var verdict := hasher.verify(password, cred.value);
      // A panic unwinds through the deferred rollback.
      if !verdict.Verdict? { db.Rollback(); return Err(Internal); }
      if !verdict.matched {
        RecordFailure(now, user, faults);
        return Err(InvalidCredentials);
      }
      r := FinishLogIn(now, user, password, salt, verdict.needsRehash, faults);
    }

    method RecordFailure(now: Time, user: User, faults: Faults)
      requires db.InTx(db.Contents()) && !db.aborted && user in db.users
      modifies db
      ensures db.Idle() && db.Contents() == RecordOutcome(old(db.Contents()), now, user, false, faults)
    {
      var _ := db.RecordLoginAttempt(Attempt(user.id, now, false), RecordAttempt in faults);
      var _ := db.Commit(CommitTx in faults);
    }

    // The rehash runs after the commit, outside the transaction; its failure is ignored.
    method FinishLogIn(now: Time, user: User, password: string, salt: seq<Byte>, needsRehash: bool, faults: Faults)
      returns (r: Result<UserRef, Error>)
      requires db.InTx(db.Contents()) && !db.aborted && user in db.users
      modifies db
      ensures db.Idle()
      ensures (db.Contents(), r) ==
        LogIn(cfg, hasher, old(db.Contents()), now, user, password, salt, needsRehash, faults)
    {
      var _ := db.RecordLoginAttempt(Attempt(user.id, now, true), RecordAttempt in faults);
      if cfg.requireVerified && !user.emailVerified {
        var _ := db.Commit(CommitTx in faults);
        return Err(EmailNotVerified);
      }
      var _ := db.UpdateLastLoginAt(user.id, now, TouchLastLogin in faults);
      var committed := db.Commit(CommitTx in faults);
      if !committed { return Err(Internal); }
      if needsRehash && GenerateSalt !in faults {
        var _ := db.UpdatePasswordHash(user.id, hasher.hash(salt, password), UpdateHash in faults);
      }
      return Ok(RefOf(user));
    }

    method ChangePassword(now: Time, user: Uuid, oldPassword: string, newPassword: string, salt: seq<Byte>,
                          faults: Faults)
      returns (r: Result<(), Error>)
      requires db.Idle()
      modifies db
      ensures db.Idle()
      ensures (db.Contents(), r) ==
        StoreSpec.ChangePassword(cfg, hasher, old(db.Contents()), now, user, oldPassword, newPassword, salt, faults)
    {
      var cred := db.GetPasswordCredential(user, ReadCredential in faults);
      if cred.NoRows? { return Err(UserNotFound); }
      if cred.Refused? { return Err(Internal); }
      var verdict := hasher.verify(oldPassword, cred.value);
      if !verdict.Verdict? { return Err(Internal); }
      if !verdict.matched { return Err(InvalidCredentials); }
      r := StoreNewPassword(user, newPassword, salt, faults);
      if r.Err? { return r; }
      var _ := db.InvalidateUserTokens(user, PasswordReset, now, InvalidateOld in faults);
    }

    method StoreNewPassword(user: Uuid, newPassword: string, salt: seq<Byte>,
                            faults: Faults) returns (r: Result<(), Error>)
      requires db.Idle()
      modifies db
      ensures db.Idle()
      ensures match StorePassword(cfg, hasher, old(db.Contents()), user, newPassword, salt, faults)
        case Err(e) => r == Err(e) && db.Contents() == old(db.Contents())
        case Ok(t) => r == Ok(()) && db.Contents() == t
    {
      var found := db.GetUser(ById(user), ReadUser in faults);
      if !found.Row? { return Err(Internal); }
      if !cfg.policy(newPassword, ContextWords(found.value)) { return Err(PolicyViolation); }
      if GenerateSalt in faults { return Err(Internal); }
      var updated := db.UpdatePasswordHash(user, hasher.hash(salt, newPassword), UpdateHash in faults);
      return if updated then Ok(()) else Err(Internal);
    }

    method InitiatePasswordReset(now: Time, email: string, raw: seq<Byte>, faults: Faults)
      returns (r: Result<string, Error>)
      requires db.Idle()
      modifies db
      ensures db.Idle()
      ensures (db.Contents(), r) == StoreSpec.InitiatePasswordReset(cfg, old(db.Contents()), now, email, raw, faults)
    {
      var found := db.GetUser(ByEmail(email, cfg.issuer), LookupUser in faults);
      if !found.Row? { return Ok(""); }
      r := IssueTokenFor(now, found.value.id, PasswordReset, raw, faults);
    }

    method CompletePasswordReset(now: Time, token: string, newPassword: string, salt: seq<Byte>, faults: Faults)
      returns (r: Result<(), Error>)
      requires db.Idle()
      modifies db
      ensures db.Idle()
      ensures (db.Contents(), r) ==
        StoreSpec.CompletePasswordReset(cfg, hasher, old(db.Contents()), now, token, newPassword, salt, faults)
    {
      var owner := db.ConsumeAuthToken(cfg.sha(token), PasswordReset, now, ConsumeToken in faults);
      if owner.NoRows? { return Err(TokenInvalid); }
      if owner.Refused? { return Err(Internal); }
      r := StoreNewPassword(owner.value, newPassword, salt, faults);
    }

    method InitiateEmailVerification(now: Time, user: Uuid, raw: seq<Byte>, faults: Faults)
      returns (r: Result<string, Error>)
      requires db.Idle()
      modifies db
      ensures db.Idle()
      ensures (db.Contents(), r) ==
        IssueToken(cfg, old(db.Contents()), now, user, EmailVerification, raw, false, faults)
    {
      r := IssueTokenFor(now, user, EmailVerification, raw, faults);
    }

    method VerifyEmail(now: Time, token: string, faults: Faults) returns (r: Result<(), Error>)
      requires db.Idle()
      modifies db
      ensures db.Idle()
      ensures (db.Contents(), r) == StoreSpec.VerifyEmail(cfg, old(db.Contents()), now, token, faults)
    {
      var owner := db.ConsumeAuthToken(cfg.sha(token), EmailVerification, now, ConsumeToken in faults);
      if owner.NoRows? { return Err(TokenInvalid); }
      if owner.Refused? { return Err(Internal); }
      r := MarkVerified(owner.value, faults);
    }

    method MarkVerified(user: Uuid, faults: Faults) returns (r: Result<(), Error>)
      requires db.Idle()
      modifies db
      ensures db.Idle() && r == if WriteVerified in faults then Err(Internal) else Ok(())
      ensures db.Contents() == if WriteVerified in faults then old(db.Contents())
              else old(db.Contents()).(users := Schema.MarkVerified(old(db.users), user))
    {
      var written := db.UpdateEmailVerified(user, WriteVerified in faults);
      return if written then Ok(()) else Err(Internal);
    }
  }
}
