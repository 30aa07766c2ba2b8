// The tables of migrations/auth and migrations/password, and the meaning of the queries of
// internal/db on them. A table is the sequence of its rows in insertion order.
module Schema {
  import opened Wrappers
  import opened Base64

  type Uuid = n: nat | n < 0x1_0000_0000_0000_0000_0000_0000_0000_0000
  type Time = int

  datatype User = User(
    id: Uuid, email: string, emailVerified: bool, username: Option<string>, name: Option<string>,
    issuer: string, subject: string, lastLoginAt: Time)

  datatype Tenant = Tenant(id: Uuid, name: string)
  datatype Membership = Membership(user: Uuid, tenant: Uuid, role: string)
  datatype Attempt = Attempt(user: Uuid, at: Time, success: bool)
  datatype TokenKind = PasswordReset | EmailVerification
  datatype TokenRow = TokenRow(
    user: Uuid, hash: seq<Byte>, kind: TokenKind, expiresAt: Time, consumedAt: Option<Time>)

  // password_credentials has user_id as its primary key.
  datatype Tables = Tables(
    users: seq<User>, tenants: seq<Tenant>, memberships: seq<Membership>,
    credentials: map<Uuid, string>, attempts: seq<Attempt>, tokens: seq<TokenRow>)

  const EMPTY := Tables([], [], [], map[], [], [])

  // ----- users -----

  datatype UserKey =
    ByEmail(email: string, issuer: string) | BySubject(issuer: string, subject: string) | ById(id: Uuid)

  predicate Matches(u: User, key: UserKey) {
    match key
    case ByEmail(email, issuer) => u.email == email && u.issuer == issuer
    case BySubject(issuer, subject) => u.issuer == issuer && u.subject == subject
    case ById(id) => u.id == id
  }

  function FindUser(users: seq<User>, key: UserKey): (r: Option<User>)
    ensures r.Some? ==> r.value in users && Matches(r.value, key)
    ensures r.None? ==> forall u | u in users :: !Matches(u, key)
  {
    if users == [] then None
    else if Matches(users[0], key) then Some(users[0])
    else FindUser(users[1..], key)
  }

  // unique_issuer_subject, users_email_issuer_uniq (partial: empty emails are exempt) and the primary key.
  predicate Clash(u: User, v: User) {
    || u.id == v.id
    || (u.issuer == v.issuer && u.subject == v.subject)
    || (u.email != "" && u.email == v.email && u.issuer == v.issuer)
  }

  predicate ClashesWithSome(users: seq<User>, u: User) {
    exists v | v in users :: Clash(v, u)
  }

  function MarkVerified(users: seq<User>, id: Uuid): (r: seq<User>)
    ensures |r| == |users|
    ensures forall i | 0 <= i < |r| ::
      r[i] == if users[i].id == id then users[i].(emailVerified := true) else users[i]
  {
    seq(|users|, i requires 0 <= i < |users| =>
      if users[i].id == id then users[i].(emailVerified := true) else users[i])
  }

  function TouchLogin(users: seq<User>, id: Uuid, now: Time): (r: seq<User>)
    ensures |r| == |users|
    ensures forall i | 0 <= i < |r| ::
      r[i] == if users[i].id == id then users[i].(lastLoginAt := now) else users[i]
  {
    seq(|users|, i requires 0 <= i < |users| =>
      if users[i].id == id then users[i].(lastLoginAt := now) else users[i])
  }

  predicate HasUser(users: seq<User>, id: Uuid) {
    exists u | u in users :: u.id == id
  }

  // ----- tenants and memberships -----

  predicate HasTenant(tenants: seq<Tenant>, id: Uuid) {
    exists t | t in tenants :: t.id == id
  }

  function TenantName(tenants: seq<Tenant>, id: Uuid): Option<string> {
    if tenants == [] then None
    else if tenants[0].id == id then Some(tenants[0].name)
    else TenantName(tenants[1..], id)
  }

  function UpsertMembership(ms: seq<Membership>, m: Membership): seq<Membership> {
    if ms == [] then [m]
    else if ms[0].user == m.user && ms[0].tenant == m.tenant then [m] + ms[1..]
    else [ms[0]] + UpsertMembership(ms[1..], m)
  }

  datatype MembershipView = MembershipView(tenant: Uuid, tenantName: string, role: string)

  // Memberships of a user joined with their tenants, oldest first.
  function MembershipsOf(ms: seq<Membership>, tenants: seq<Tenant>, user: Uuid): seq<MembershipView> {
    if ms == [] then []
    else
      var name := TenantName(tenants, ms[0].tenant);
      (if ms[0].user == user && name.Some? then [MembershipView(ms[0].tenant, name.value, ms[0].role)] else [])
      + MembershipsOf(ms[1..], tenants, user)
  }

  // ----- login attempts -----

  predicate RecentFailure(a: Attempt, user: Uuid, since: Time) {
    a.user == user && !a.success && a.at > since
  }

  function CountRecentFailures(attempts: seq<Attempt>, user: Uuid, since: Time): nat {
    if attempts == [] then 0
    else CountRecentFailures(attempts[..|attempts| - 1], user, since)
         + if RecentFailure(attempts[|attempts| - 1], user, since) then 1 else 0
  }

  // ----- tokens -----

  predicate Usable(tok: TokenRow, hash: seq<Byte>, kind: TokenKind, now: Time) {
    tok.hash == hash && tok.kind == kind && tok.consumedAt.None? && tok.expiresAt > now
  }

  predicate Live(tok: TokenRow, user: Uuid, kind: TokenKind) {
    tok.user == user && tok.kind == kind && tok.consumedAt.None?
  }

  function ConsumeTokens(tokens: seq<TokenRow>, hash: seq<Byte>, kind: TokenKind, now: Time): (r: seq<TokenRow>)
    ensures |r| == |tokens|
    ensures forall i | 0 <= i < |r| ::
      r[i] == if Usable(tokens[i], hash, kind, now) then tokens[i].(consumedAt := Some(now)) else tokens[i]
  {
    seq(|tokens|, i requires 0 <= i < |tokens| =>
      if Usable(tokens[i], hash, kind, now) then tokens[i].(consumedAt := Some(now)) else tokens[i])
  }

  // The user_id of the first row the UPDATE ... RETURNING changes.
  function TokenOwner(tokens: seq<TokenRow>, hash: seq<Byte>, kind: TokenKind, now: Time): (r: Option<Uuid>)
    ensures r.Some? ==> exists tok | tok in tokens :: Usable(tok, hash, kind, now) && tok.user == r.value
    ensures r.None? ==> forall tok | tok in tokens :: !Usable(tok, hash, kind, now)
  {
    if tokens == [] then None
    else if Usable(tokens[0], hash, kind, now) then Some(tokens[0].user)
    else TokenOwner(tokens[1..], hash, kind, now)
  }

  function InvalidateTokens(tokens: seq<TokenRow>, user: Uuid, kind: TokenKind, now: Time): (r: seq<TokenRow>)
    ensures |r| == |tokens|
    ensures forall i | 0 <= i < |r| ::
      r[i] == if Live(tokens[i], user, kind) then tokens[i].(consumedAt := Some(now)) else tokens[i]
  {
    seq(|tokens|, i requires 0 <= i < |tokens| =>
      if Live(tokens[i], user, kind) then tokens[i].(consumedAt := Some(now)) else tokens[i])
  }
}
