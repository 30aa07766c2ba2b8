// auth/handler.go, auth/password/handler.go and auth/middleware.go: the claims a session holds, the
// handlers that put and destroy them, and the middleware that turns them into a request context.
module Sessions {
  import opened Wrappers
  import opened Schema
  import opened TenantContext

  datatype Claims = Claims(authenticated: bool, user: Uuid, issuer: string, subject: string, active: Option<Uuid>)

  // What the code gets back from its identity store about the user that logged in.
  datatype Identified = Identified(user: Uuid, issuer: string, subject: string)

  datatype Answer = 
    Selected | SelectionNeeded | LoggedOut | PasswordChanged | Refused | Unauthorized | Forbidden | InternalError

  // The claims of a login: the tenant is chosen only for a user with exactly one membership.
  function LoginClaims(who: Identified, tenants: seq<Uuid>): Claims {
    Claims(true, who.user, who.issuer, who.subject, if |tenants| == 1 then Some(tenants[0]) else None)
  }

  // A user without memberships gets no session from the OIDC callback.
  function AfterCallback(sessions: map<string, Claims>, key: string, who: Identified, tenants: seq<Uuid>)
    : map<string, Claims>
  {
    if tenants == [] then sessions else sessions[key := LoginClaims(who, tenants)]
  }

  function AfterSelect(sessions: map<string, Claims>, key: string, claims: Claims, tenant: Uuid, tenants: seq<Uuid>)
    : map<string, Claims>
  {
    if tenant in tenants then sessions[key := claims.(active := Some(tenant))] else sessions
  }

  function SessionClaims(sessions: map<string, Claims>, key: string): Option<Claims> {
    if key in sessions && sessions[key].authenticated then Some(sessions[key]) else None
  }

  // The session of `key` is there now, and the others are as before.
  ghost predicate OnlyAt(before: map<string, Claims>, after: map<string, Claims>, key: string) {
    && key in after && (forall other | other != key :: other in after <==> other in before)
    && forall other | other in after && other != key :: after[other] == before[other]
  }

  // It is a session of this user, with the one tenant active if there is one, and with none for none or several.
  ghost predicate StartsSession(before: map<string, Claims>, after: map<string, Claims>, key: string, who: Identified,
                                tenants: seq<Uuid>) {
    && OnlyAt(before, after, key) && SessionClaims(after, key) == Some(after[key])
    && after[key].authenticated && after[key].user == who.user
    && after[key].issuer == who.issuer && after[key].subject == who.subject
    && (|tenants| == 1 ==> after[key].active == Some(tenants[0]))
    && (|tenants| != 1 ==> after[key].active.None?)
  }

  class SessionStore {
    var sessions: map<string, Claims>

    constructor ()
      ensures sessions == map[]
    {
      sessions := map[];
    }

    // The end of the OIDC callback, once the memberships are listed.
    method FinishCallback(key: string, who: Identified, tenants: seq<Uuid>) returns (a: Answer)
      modifies this
      ensures sessions == AfterCallback(old(sessions), key, who, tenants)
      ensures |tenants| == 0 ==> sessions == old(sessions)
      ensures |tenants| > 0 ==> StartsSession(old(sessions), sessions, key, who, tenants)
      ensures a == if |tenants| == 0 then Forbidden else if |tenants| == 1 then Selected else SelectionNeeded
    {
      if |tenants| == 0 { return Forbidden; }
      var claims := Claims(true, who.user, who.issuer, who.subject, None);
      if |tenants| == 1 { claims := claims.(active := Some(tenants[0])); }
      sessions := sessions[key := claims];
      return if claims.active.None? then SelectionNeeded else Selected;
    }

    // The end of the password login: a user without memberships does get a session.
    method FinishLogin(key: string, who: Identified, tenants: seq<Uuid>) returns (a: Answer)
      modifies this
      ensures sessions == old(sessions)[key := LoginClaims(who, tenants)]
      ensures StartsSession(old(sessions), sessions, key, who, tenants)
      ensures a == if |tenants| > 1 then SelectionNeeded else Selected
    {
      var claims := Claims(true, who.user, who.issuer, who.subject, None);
      if |tenants| == 1 { claims := claims.(active := Some(tenants[0])); }
      sessions := sessions[key := claims];
      return if |tenants| > 1 then SelectionNeeded else Selected;
    }

    // The end of SelectTenantHandler, with the claims and memberships it read before.
    method FinishSelect(key: string, claims: Claims, tenant: Uuid, tenants: seq<Uuid>) returns (a: Answer)
      modifies this
      ensures a == if tenant in tenants then Selected else Forbidden
      ensures a == Selected ==> OnlyAt(old(sessions), sessions, key) && sessions[key] == claims.(active := Some(tenant))
      ensures a == Selected && claims.authenticated ==>
                SessionClaims(sessions, key) == Some(claims.(active := Some(tenant)))
      ensures a == Forbidden ==> sessions == old(sessions)
      ensures sessions == AfterSelect(old(sessions), key, claims, tenant, tenants)
    {
      var allowed := false;
      for i := 0 to |tenants|
        invariant !allowed && tenant !in tenants[..i]
      {
        if tenants[i] == tenant {
          allowed := true;
          break;
        }
      }
      if !allowed {
        assert tenants[..|tenants|] == tenants;
        return Forbidden;
      }
      sessions := sessions[key := claims.(active := Some(tenant))];
      return Selected;
    }

    // The password handler refuses a session that is not authenticated; the OIDC one destroys any.
    method Logout(key: string, checksClaims: bool, fails: bool) returns (a: Answer)
      modifies this
      ensures var allowed := !checksClaims || SessionClaims(old(sessions), key).Some?;
        && a == (if !allowed then Unauthorized else if fails then InternalError else LoggedOut)
        && sessions == if allowed && !fails then old(sessions) - {key} else old(sessions)
    {
      if checksClaims {
        var claims := SessionClaims(sessions, key);
        if claims.None? { return Unauthorized; }
      }
      if fails { return InternalError; }
      sessions := sessions - {key};
      return LoggedOut;
    }

    // The end of ChangePasswordHandler: a successful change ends this session, and no other; that the
    // session could not be ended is ignored.
    method FinishChangePassword(key: string, changed: bool, fails: bool) returns (a: Answer)
      modifies this
      ensures a ==
        if SessionClaims(old(sessions), key).None? then Unauthorized else if changed then PasswordChanged else Refused
      ensures sessions == if a.PasswordChanged? && !fails then old(sessions) - {key} else old(sessions)
    {
      if SessionClaims(sessions, key).None? { return Unauthorized; }
      if !changed { return Refused; }
      if !fails { sessions := sessions - {key}; }
      return PasswordChanged;
    }
  }

  // ----- the middleware -----

  datatype Verdict = NotAuthenticated | TenantRequired | Next(ctx: Context)

  // An allowed path matches exactly, or as a prefix if it ends in a star; empty entries match nothing.
  predicate PathMatches(path: string, allowed: string) {
    if allowed == "" then false
    else if allowed[|allowed| - 1] == '*' then allowed[..|allowed| - 1] <= path
    else path == allowed
  }

  predicate IsTenantOptionalPath(path: string, allowed: seq<string>) {
    allowed != [] && (PathMatches(path, allowed[0]) || IsTenantOptionalPath(path, allowed[1..]))
  }

  lemma {:induction false} SomeMatches(path: string, allowed: seq<string>)
    ensures IsTenantOptionalPath(path, allowed) <==> exists i :: 0 <= i < |allowed| && PathMatches(path, allowed[i])
  {
    if allowed != [] {
      SomeMatches(path, allowed[1..]);
      if i :| 0 <= i < |allowed| && PathMatches(path, allowed[i]) {
        if i > 0 { assert allowed[1..][i - 1] == allowed[i]; }
      }
    }
  }

  // The entry is the path as it stands, or the first n characters of it with a star behind.
  predicate IsPath(path: string, entry: string) { entry == path && path != "" && path[|path| - 1] != '*' }

  predicate IsPrefix(path: string, entry: string, n: nat) { n <= |path| && entry == path[..n] + "*" }

  ghost predicate Optional(path: string, allowed: seq<string>) {
    exists entry :: entry in allowed && (IsPath(path, entry) || exists n :: IsPrefix(path, entry, n))
  }

  lemma MatchExactly(path: string, entry: string)
    ensures PathMatches(path, entry) <==> IsPath(path, entry) || exists n :: IsPrefix(path, entry, n)
  {
    if PathMatches(path, entry) && entry[|entry| - 1] == '*' {
      assert IsPrefix(path, entry, |entry| - 1);
    }
    if n: nat :| IsPrefix(path, entry, n) {
      assert entry[..|entry| - 1] == path[..n];
    }
  }

  lemma OptionalExactly(path: string, allowed: seq<string>)
    ensures IsTenantOptionalPath(path, allowed) <==> Optional(path, allowed)
  {
    SomeMatches(path, allowed);
    if i :| 0 <= i < |allowed| && PathMatches(path, allowed[i]) {
      MatchExactly(path, allowed[i]);
      assert allowed[i] in allowed;
    }
    if entry :| entry in allowed && (IsPath(path, entry) || exists n :: IsPrefix(path, entry, n)) {
      MatchExactly(path, entry);
      var i :| 0 <= i < |allowed| && allowed[i] == entry;
      assert PathMatches(path, allowed[i]);
    }
  }

  function RequireAuthenticated(base: Context, claims: Option<Claims>, path: string, allowed: seq<string>): Verdict {
    match claims
    case None => NotAuthenticated
    case Some(c) =>
      if !c.authenticated then NotAuthenticated
      else if c.active.None? && !IsTenantOptionalPath(path, allowed) then TenantRequired
      else Next(if c.active.Some? then WithTenantID(base, c.active.value) else base)
  }
}
