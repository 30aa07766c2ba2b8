// internal/db: the queries run against mutable tables, alone or inside a transaction.
// A statement that fails inside a transaction aborts it: later statements fail too and
// a commit then rolls back, as PostgreSQL does.
module Database {
  import opened Wrappers
  import opened Base64
  import opened Schema

  datatype Rows<+T> = Row(value: T) | NoRows | Refused

  datatype Inserted = Done | UniqueViolation | Rejected

  class Database {
    var users: seq<User>
    var tenants: seq<Tenant>
    var memberships: seq<Membership>
    var credentials: map<Uuid, string>
    var attempts: seq<Attempt>
    var tokens: seq<TokenRow>
    // The tables as they were when the open transaction began, if one is open.
    var saved: Option<Tables>
    var aborted: bool

    function Contents(): Tables
      reads this
    {
      Tables(users, tenants, memberships, credentials, attempts, tokens)
    }

    predicate Idle()
      reads this
    {
      saved.None? && !aborted
    }

    predicate InTx(before: Tables)
      reads this
    {
      saved == Some(before)
    }

    constructor ()
      ensures Idle() && Contents() == EMPTY
    {
      users, tenants, memberships, credentials, attempts, tokens := [], [], [], map[], [], [];
      saved, aborted := None, false;
    }

    method Restore(t: Tables)
      modifies this
      ensures Contents() == t && saved == old(saved) && aborted == old(aborted)
    {
      users, tenants, memberships := t.users, t.tenants, t.memberships;
      credentials, attempts, tokens := t.credentials, t.attempts, t.tokens;
    }

    // ----- transactions -----

    method Begin(fails: bool) returns (ok: bool)
      requires Idle()
      modifies this
      ensures ok == !fails && Contents() == old(Contents()) && !aborted
      ensures saved == if ok then Some(old(Contents())) else None
    {
      ok := !fails;
      if ok { saved := Some(Contents()); }
    }

    method Commit(fails: bool) returns (ok: bool)
      requires saved.Some?
      modifies this
      ensures Idle() && ok == !(fails || old(aborted))
      ensures Contents() == if ok then old(Contents()) else old(saved).value
    {
      ok := !fails && !aborted;
      if !ok { Restore(saved.value); }
      saved, aborted := None, false;
    }

    // The deferred rollback; it does nothing after a commit.
    method Rollback()
      modifies this
      ensures Idle()
      ensures Contents() == if old(saved).Some? then old(saved).value else old(Contents())
    {
      if saved.Some? { Restore(saved.value); }
      saved, aborted := None, false;
    }

    // Whether a statement runs; a failure inside a transaction aborts it.
    method Run(fails: bool) returns (ok: bool)
      modifies this`aborted
      ensures ok == !(fails || old(aborted))
      ensures aborted == (old(aborted) || (fails && saved.Some?))
    {
      ok := !fails && !aborted;
      if fails && saved.Some? { aborted := true; }
    }

    // ----- reads -----

    method GetUser(key: UserKey, fails: bool) returns (r: Rows<User>)
      modifies this`aborted
      ensures aborted == (old(aborted) || (fails && saved.Some?))
      ensures r == if fails || old(aborted) then Refused
                   else match FindUser(users, key) case Some(u) => Row(u) case None => NoRows
    {
      var ok := Run(fails);
      if !ok { return Refused; }
      match FindUser(users, key) {
        case Some(u) => r := Row(u);
        case None => r := NoRows;
      }
    }

    method GetPasswordCredential(user: Uuid, fails: bool) returns (r: Rows<string>)
      modifies this`aborted
      ensures aborted == (old(aborted) || (fails && saved.Some?))
      ensures r == if fails || old(aborted) then Refused
                   else if user in credentials then Row(credentials[user]) else NoRows
    {
      var ok := Run(fails);
      if !ok { return Refused; }
      r := if user in credentials then Row(credentials[user]) else NoRows;
    }

    method GetFirstTenant(fails: bool) returns (r: Rows<Uuid>)
      modifies this`aborted
      ensures aborted == (old(aborted) || (fails && saved.Some?))
      ensures r == if fails || old(aborted) then Refused
                   else if tenants != [] then Row(tenants[0].id) else NoRows
    {
      var ok := Run(fails);
      if !ok { return Refused; }
      r := if tenants != [] then Row(tenants[0].id) else NoRows;
    }

    method GetTenantByID(id: Uuid, fails: bool) returns (r: Rows<string>)
      modifies this`aborted
      ensures aborted == (old(aborted) || (fails && saved.Some?))
      ensures r == if fails || old(aborted) then Refused
                   else match TenantName(tenants, id) case Some(n) => Row(n) case None => NoRows
    {
      var ok := Run(fails);
      if !ok { return Refused; }
      match TenantName(tenants, id) {
        case Some(n) => r := Row(n);
        case None => r := NoRows;
      }
    }

    method ListMemberships(user: Uuid, fails: bool) returns (r: Rows<seq<MembershipView>>)
      modifies this`aborted
      ensures aborted == (old(aborted) || (fails && saved.Some?))
      ensures r == if fails || old(aborted) then Refused else Row(MembershipsOf(memberships, tenants, user))
    {
      var ok := Run(fails);
      if !ok { return Refused; }
      r := Row(MembershipsOf(memberships, tenants, user));
    }

    method CountRecentFailedAttempts(user: Uuid, since: Time, fails: bool) returns (r: Rows<nat>)
      modifies this`aborted
      ensures aborted == (old(aborted) || (fails && saved.Some?))
      ensures r == if fails || old(aborted) then Refused else Row(CountRecentFailures(attempts, user, since))
    {
      var ok := Run(fails);
      if !ok { return Refused; }
      r := Row(CountRecentFailures(attempts, user, since));
    }

    // ----- writes -----

    method InsertTenant(t: Tenant, fails: bool) returns (r: Inserted)
      modifies this`tenants, this`aborted
      ensures r == if fails || old(aborted) then Rejected
                   else if HasTenant(old(tenants), t.id) then UniqueViolation else Done
      ensures tenants == if r.Done? then old(tenants) + [t] else old(tenants)
      ensures aborted == (old(aborted) || (!r.Done? && saved.Some?))
    {
      var ok := Run(fails);
      if !ok { return Rejected; }
      if HasTenant(tenants, t.id) {
        var _ := Run(true);
        return UniqueViolation;
      }
      tenants := tenants + [t];
      r := Done;
    }

    method InsertUser(u: User, fails: bool) returns (r: Inserted)
      modifies this`users, this`aborted
      ensures r == if fails || old(aborted) then Rejected
                   else if ClashesWithSome(old(users), u) then UniqueViolation else Done
      ensures users == if r.Done? then old(users) + [u] else old(users)
      ensures aborted == (old(aborted) || (!r.Done? && saved.Some?))
    {
      var ok := Run(fails);
      if !ok { return Rejected; }
      if ClashesWithSome(users, u) {
        var _ := Run(true);
        return UniqueViolation;
      }
      users := users + [u];
      r := Done;
    }

    // tenant_memberships references users(id) and tenants(tenant_id).
    method UpsertTenantMembership(m: Membership, fails: bool) returns (ok: bool)
      modifies this`memberships, this`aborted
      ensures ok == (!fails && !old(aborted) && HasUser(users, m.user) && HasTenant(tenants, m.tenant))
      ensures memberships == if ok then UpsertMembership(old(memberships), m) else old(memberships)
      ensures aborted == (old(aborted) || (!ok && saved.Some?))
    {
      ok := Run(fails || !HasUser(users, m.user) || !HasTenant(tenants, m.tenant));
      if ok { memberships := UpsertMembership(memberships, m); }
    }

    // password_credentials.user_id references users(id).
    method UpsertPasswordCredential(user: Uuid, hash: string, fails: bool) returns (ok: bool)
      modifies this`credentials, this`aborted
      ensures ok == (!fails && !old(aborted) && HasUser(users, user))
      ensures credentials == if ok then old(credentials)[user := hash] else old(credentials)
      ensures aborted == (old(aborted) || (!ok && saved.Some?))
    {
      ok := Run(fails || !HasUser(users, user));
      if ok { credentials := credentials[user := hash]; }
    }

    // An UPDATE that matches no row is no error.
    method UpdatePasswordHash(user: Uuid, hash: string, fails: bool) returns (ok: bool)
      modifies this`credentials, this`aborted
      ensures ok == !(fails || old(aborted))
      ensures credentials == if ok && user in old(credentials) then old(credentials)[user := hash] else old(credentials)
      ensures aborted == (old(aborted) || (fails && saved.Some?))
    {
      ok := Run(fails);
      if ok && user in credentials { credentials := credentials[user := hash]; }
    }

    // login_attempts.user_id references users(id).
    method RecordLoginAttempt(a: Attempt, fails: bool) returns (ok: bool)
      modifies this`attempts, this`aborted
      ensures ok == (!fails && !old(aborted) && HasUser(users, a.user))
      ensures attempts == if ok then old(attempts) + [a] else old(attempts)
      ensures aborted == (old(aborted) || (!ok && saved.Some?))
    {
      ok := Run(fails || !HasUser(users, a.user));
      if ok { attempts := attempts + [a]; }
    }

    method UpdateLastLoginAt(user: Uuid, now: Time, fails: bool) returns (ok: bool)
      modifies this`users, this`aborted
      ensures ok == !(fails || old(aborted))
      ensures users == if ok then TouchLogin(old(users), user, now) else old(users)
      ensures aborted == (old(aborted) || (fails && saved.Some?))
    {
      ok := Run(fails);
      if ok { users := TouchLogin(users, user, now); }
    }

    method UpdateEmailVerified(user: Uuid, fails: bool) returns (ok: bool)
      modifies this`users, this`aborted
      ensures ok == !(fails || old(aborted))
      ensures users == if ok then MarkVerified(old(users), user) else old(users)
      ensures aborted == (old(aborted) || (fails && saved.Some?))
    {
      ok := Run(fails);
      if ok { users := MarkVerified(users, user); }
    }

    // auth_tokens.user_id references users(id).
    method InsertAuthToken(tok: TokenRow, fails: bool) returns (ok: bool)
      modifies this`tokens, this`aborted
      ensures ok == (!fails && !old(aborted) && HasUser(users, tok.user))
      ensures tokens == if ok then old(tokens) + [tok] else old(tokens)
      ensures aborted == (old(aborted) || (!ok && saved.Some?))
    {
      ok := Run(fails || !HasUser(users, tok.user));
      if ok { tokens := tokens + [tok]; }
    }

    method InvalidateUserTokens(user: Uuid, kind: TokenKind, now: Time, fails: bool) returns (ok: bool)
      modifies this`tokens, this`aborted
      ensures ok == !(fails || old(aborted))
      ensures tokens == if ok then InvalidateTokens(old(tokens), user, kind, now) else old(tokens)
      ensures aborted == (old(aborted) || (fails && saved.Some?))
    {
      ok := Run(fails);
      if ok { tokens := InvalidateTokens(tokens, user, kind, now); }
    }

    method ConsumeAuthToken(hash: seq<Byte>, kind: TokenKind, now: Time, fails: bool) returns (r: Rows<Uuid>)
      modifies this`tokens, this`aborted
      ensures aborted == (old(aborted) || (fails && saved.Some?))
      ensures r == if fails || old(aborted) then Refused
                   else match TokenOwner(old(tokens), hash, kind, now) case Some(u) => Row(u) case None => NoRows
      ensures tokens == if r.Row? then ConsumeTokens(old(tokens), hash, kind, now) else old(tokens)
    {
      var ok := Run(fails);
      if !ok { return Refused; }
      match TokenOwner(tokens, hash, kind, now) {
        case Some(u) =>
          tokens := ConsumeTokens(tokens, hash, kind, now);
          r := Row(u);
        case None =>
          r := NoRows;
      }
    }
  }
}
