// What each operation of the password identity store does to the tables, as functions.
// `faults` names the calls that fail; `now` is the one clock reading of an operation.
module StoreSpec {
  import opened Wrappers
  import opened Base64
  import opened Hasher
  import opened Token
  import opened Schema

  datatype Point =
    | BeginTx | CommitTx
    | LookupUser | ReadUser | ReadCredential | CountAttempts | RecordAttempt | TouchLastLogin
    | WriteCredential | UpdateHash | InvalidateOld | InsertToken | ConsumeToken | WriteVerified
    | ResolveUser | ReadFirstTenant | AddTenant | AddUser | AddMembership | ReadTenantName | ReadMemberships
    | GenerateSalt | GenerateBytes | SendMail

  type Faults = set<Point>

  datatype Config = Config(
    issuer: string, requireVerified: bool, maxAttempts: int, window: Time,
    resetExpiry: Time, verifyExpiry: Time, tenantName: string,
    policy: (string, seq<string>) -> bool, argon: Argon2id, sha: Sha256)

  datatype Error =
    InvalidCredentials | AccountLocked | PolicyViolation | EmailAlreadyRegistered
    | EmailNotVerified | TokenInvalid | UserNotFound | Internal

  datatype UserRef = UserRef(id: Uuid, issuer: string, subject: string)

  datatype Identity = Identity(
    issuer: string, subject: string, email: string, emailVerified: bool,
    username: string, name: string, preferredUsername: string)

  // The identifiers a call would generate if it needs them.
  datatype FreshIds = FreshIds(user: Uuid, tenant: Uuid)

  datatype RegisterRequest = RegisterRequest(email: string, password: string, username: string, name: string)

  // The callback of RegisterWithEmailVerification: the random bytes of its token and whether there is a sender.
  datatype Verification = Verification(raw: seq<Byte>, hasSender: bool)

  datatype ProvisionError = Unique | Other

  function RefOf(u: User): UserRef { UserRef(u.id, u.issuer, u.subject) }

  function TextOf(s: string): Option<string> { if s != "" then Some(s) else None }

  function ContextWords(u: User): seq<string> {
    [u.email] + if u.username.Some? && u.username.value != "" then [u.username.value] else []
  }

  function RequestWords(req: RegisterRequest): seq<string> {
    [req.email] + if req.username != "" then [req.username] else []
  }

  predicate IsLockedOut(failed: int, maxAttempts: int) { failed >= maxAttempts }

  predicate Locked(cfg: Config, t: Tables, user: Uuid, now: Time) {
    IsLockedOut(CountRecentFailures(t.attempts, user, now - cfg.window), cfg.maxAttempts)
  }

  // ----- auth/postgres_store.go -----

  function FirstTenantOrCreate(name: string, t: Tables, ids: FreshIds, faults: Faults)
    : (Tables, Result<Uuid, ProvisionError>)
  {
    if ReadFirstTenant in faults then (t, Err(Other))
    else if t.tenants != [] then (t, Ok(t.tenants[0].id))
    else if AddTenant in faults then (t, Err(Other))
    else if HasTenant(t.tenants, ids.tenant) then (t, Err(Unique))
    else (t.(tenants := t.tenants + [Tenant(ids.tenant, name)]), Ok(ids.tenant))
  }

  function NewUser(identity: Identity, ids: FreshIds, now: Time): User {
    var username := if identity.preferredUsername == "" then identity.username else identity.preferredUsername;
    User(ids.user, identity.email, identity.emailVerified, TextOf(username), TextOf(identity.name),
         identity.issuer, identity.subject, now)
  }

  // Outside a transaction every statement is its own commit, so a failure leaves the earlier writes;
  // reading the tenant name may fail without consequence there, and aborts inside a transaction.
  function Provision(name: string, t: Tables, now: Time, identity: Identity, ids: FreshIds, inTx: bool, faults: Faults)
    : (Tables, Result<UserRef, ProvisionError>)
  {
    if ResolveUser in faults then (t, Err(Other))
    else match FindUser(t.users, BySubject(identity.issuer, identity.subject))
      case Some(u) =>
        if ReadMemberships in faults || MembershipsOf(t.memberships, t.tenants, u.id) == [] then (t, Err(Other))
        else (t, Ok(RefOf(u)))
      case None => Create(name, t, now, NewUser(identity, ids, now), ids, inTx, faults)
  }

  function Create(name: string, t: Tables, now: Time, u: User, ids: FreshIds, inTx: bool, faults: Faults)
    : (Tables, Result<UserRef, ProvisionError>)
  {
    var (t1, tenant) := FirstTenantOrCreate(name, t, ids, faults);
    if tenant.Err? then (t1, Err(tenant.error))
    else if AddUser in faults then (t1, Err(Other))
    else if ClashesWithSome(t1.users, u) then (t1, Err(Unique))
    else
      var t2 := t1.(users := t1.users + [u]);
      if AddMembership in faults then (t2, Err(Other))
      else
        var t3 := t2.(memberships := UpsertMembership(t2.memberships, Membership(u.id, tenant.value, "member")));
        if (inTx && ReadTenantName in faults) || ReadMemberships in faults
           || MembershipsOf(t3.memberships, t3.tenants, u.id) == [] then (t3, Err(Other))
        else (t3, Ok(RefOf(u)))
  }

  // ----- auth/password/store.go -----

  function LocalIdentity(cfg: Config, req: RegisterRequest): Identity {
    Identity(cfg.issuer, req.email, req.email, false, req.username, req.name, "")
  }

  // Invalidation may fail without consequence outside a transaction; inside one it aborts.
  function IssueToken(cfg: Config, t: Tables, now: Time, user: Uuid, kind: TokenKind, raw: seq<Byte>, inTx: bool,
                      faults: Faults)
    : (Tables, Result<string, Error>)
  {
    var t1 := if InvalidateOld in faults then t
              else t.(tokens := InvalidateTokens(t.tokens, user, kind, now));
    if GenerateBytes in faults then (t1, Err(Internal))
    else if InsertToken in faults || (inTx && InvalidateOld in faults) || !HasUser(t1.users, user) then
      (t1, Err(Internal))
    else
      var token := GenerateToken(cfg.sha, raw);
      var expiry := if kind.PasswordReset? then cfg.resetExpiry else cfg.verifyExpiry;
      (t1.(tokens := t1.tokens + [TokenRow(user, token.hash, kind, now + expiry, None)]), Ok(token.plaintext))
  }

  function Register(cfg: Config, hasher: PasswordHasher, t: Tables, now: Time, req: RegisterRequest,
                    salt: seq<Byte>, ids: FreshIds, mail: Option<Verification>, faults: Faults)
    : (Tables, Result<(UserRef, string), Error>)
  {
    if req.email == "" || req.password == "" then (t, Err(PolicyViolation))
    else if !cfg.policy(req.password, RequestWords(req)) then (t, Err(PolicyViolation))
    else if GenerateSalt in faults || BeginTx in faults then (t, Err(Internal))
    else match RegisterTx(cfg, t, now, req, hasher.hash(salt, req.password), ids, mail, faults)
      case Err(e) => (t, Err(e))
      case Ok((t', ref, token)) => if CommitTx in faults then (t, Err(Internal)) else (t', Ok((ref, token)))
  }

  // The body of the registration transaction. A failed lookup lets the code go on, but aborts the transaction.
  function RegisterTx(cfg: Config, t: Tables, now: Time, req: RegisterRequest, hash: string,
                      ids: FreshIds, mail: Option<Verification>, faults: Faults)
    : Result<(Tables, UserRef, string), Error>
  {
    var existing := FindUser(t.users, ByEmail(req.email, cfg.issuer));
    if LookupUser in faults then Err(Internal)
    else if existing.Some? && ReadCredential in faults then Err(Internal)
    else if existing.Some? && existing.value.id in t.credentials then Err(EmailAlreadyRegistered)
    else
      var (t1, provisioned) := Provision(cfg.tenantName, t, now, LocalIdentity(cfg, req), ids, true, faults);
      match provisioned
      case Err(Unique) => Err(EmailAlreadyRegistered)
      case Err(Other) => Err(Internal)
      case Ok(ref) =>
        if WriteCredential in faults then Err(Internal)
        else
          var t2 := t1.(credentials := t1.credentials[ref.id := hash]);
          match mail
          case None => Ok((t2, ref, ""))
          case Some(v) =>
            var (t3, token) := IssueToken(cfg, t2, now, ref.id, EmailVerification, v.raw, true, faults);
            if token.Err? then Err(token.error)
            else if v.hasSender && SendMail in faults then Err(Internal)
            else Ok((t3, ref, token.value))
  }

  function Authenticate(cfg: Config, hasher: PasswordHasher, t: Tables, now: Time, email: string, password: string,
                        salt: seq<Byte>, faults: Faults)
    : (Tables, Result<UserRef, Error>)
  {
    if LookupUser in faults then (t, Err(Internal))
    else match FindUser(t.users, ByEmail(email, cfg.issuer))
      case None => (t, Err(InvalidCredentials))
      case Some(u) =>
        if BeginTx in faults || CountAttempts in faults then (t, Err(Internal))
        else if Locked(cfg, t, u.id, now) then (t, Err(AccountLocked))
        else if ReadCredential in faults then (t, Err(Internal))
        else if u.id !in t.credentials then (t, Err(InvalidCredentials))
        else match hasher.verify(password, t.credentials[u.id])
          case Undecodable => (t, Err(Internal))
          case Panic => (t, Err(Internal))
          case Verdict(false, _) => (RecordOutcome(t, now, u, false, faults), Err(InvalidCredentials))
          case Verdict(true, needsRehash) => LogIn(cfg, hasher, t, now, u, password, salt, needsRehash, faults)
  }

  function RecordOutcome(t: Tables, now: Time, u: User, success: bool, faults: Faults): Tables {
    if RecordAttempt in faults || CommitTx in faults then t
    else t.(attempts := t.attempts + [Attempt(u.id, now, success)])
  }

  // After a password match.
  function LogIn(cfg: Config, hasher: PasswordHasher, t: Tables, now: Time, u: User, password: string,
                 salt: seq<Byte>, needsRehash: bool, faults: Faults)
    : (Tables, Result<UserRef, Error>)
  {
    var recorded := RecordOutcome(t, now, u, true, faults);
    if cfg.requireVerified && !u.emailVerified then (recorded, Err(EmailNotVerified))
    else if RecordAttempt in faults || TouchLastLogin in faults || CommitTx in faults then (t, Err(Internal))
    else
      var touched := recorded.(users := TouchLogin(recorded.users, u.id, now));
      if needsRehash && GenerateSalt !in faults && UpdateHash !in faults then
        (SetHash(touched, u.id, hasher.hash(salt, password)), Ok(RefOf(u)))
      else (touched, Ok(RefOf(u)))
  }

  function SetHash(t: Tables, user: Uuid, hash: string): Tables {
    if user in t.credentials then t.(credentials := t.credentials[user := hash]) else t
  }

  function ChangePassword(cfg: Config, hasher: PasswordHasher, t: Tables, now: Time, user: Uuid, oldPassword: string,
                          newPassword: string, salt: seq<Byte>, faults: Faults)
    : (Tables, Result<(), Error>)
  {
    if ReadCredential in faults then (t, Err(Internal))
    else if user !in t.credentials then (t, Err(UserNotFound))
    else match hasher.verify(oldPassword, t.credentials[user])
      case Undecodable => (t, Err(Internal))
      case Panic => (t, Err(Internal))
      case Verdict(matched, _) =>
        if !matched then (t, Err(InvalidCredentials))
        else match StorePassword(cfg, hasher, t, user, newPassword, salt, faults)
          case Err(e) => (t, Err(e))
          case Ok(t1) =>
            if InvalidateOld in faults then (t1, Ok(()))
            else (t1.(tokens := InvalidateTokens(t1.tokens, user, PasswordReset, now)), Ok(()))
  }

  // The part ChangePassword and CompletePasswordReset share: policy, hash, update.
  function StorePassword(cfg: Config, hasher: PasswordHasher, t: Tables, user: Uuid, newPassword: string,
                         salt: seq<Byte>, faults: Faults): Result<Tables, Error>
  {
    if ReadUser in faults then Err(Internal)
    else match FindUser(t.users, ById(user))
      case None => Err(Internal)
      case Some(u) =>
        if !cfg.policy(newPassword, ContextWords(u)) then Err(PolicyViolation)
        else if GenerateSalt in faults || UpdateHash in faults then Err(Internal)
        else Ok(SetHash(t, user, hasher.hash(salt, newPassword)))
  }

  function InitiatePasswordReset(cfg: Config, t: Tables, now: Time, email: string, raw: seq<Byte>, faults: Faults)
    : (Tables, Result<string, Error>)
  {
    if LookupUser in faults then (t, Ok(""))
    else match FindUser(t.users, ByEmail(email, cfg.issuer))
      case None => (t, Ok(""))
      case Some(u) => IssueToken(cfg, t, now, u.id, PasswordReset, raw, false, faults)
  }

  // The token stays consumed whatever happens after the first statement.
  function CompletePasswordReset(cfg: Config, hasher: PasswordHasher, t: Tables, now: Time, token: string,
                                 newPassword: string, salt: seq<Byte>, faults: Faults)
    : (Tables, Result<(), Error>)
  {
    if ConsumeToken in faults then (t, Err(Internal))
    else match TokenOwner(t.tokens, cfg.sha(token), PasswordReset, now)
      case None => (t, Err(TokenInvalid))
      case Some(user) =>
        var t1 := t.(tokens := ConsumeTokens(t.tokens, cfg.sha(token), PasswordReset, now));
        match StorePassword(cfg, hasher, t1, user, newPassword, salt, faults)
        case Err(e) => (t1, Err(e))
        case Ok(t2) => (t2, Ok(()))
  }

  function VerifyEmail(cfg: Config, t: Tables, now: Time, token: string, faults: Faults)
    : (Tables, Result<(), Error>)
  {
    if ConsumeToken in faults then (t, Err(Internal))
    else match TokenOwner(t.tokens, cfg.sha(token), EmailVerification, now)
      case None => (t, Err(TokenInvalid))
      case Some(user) =>
        var t1 := t.(tokens := ConsumeTokens(t.tokens, cfg.sha(token), EmailVerification, now));
        if WriteVerified in faults then (t1, Err(Internal))
        else (t1.(users := MarkVerified(t1.users, user)), Ok(()))
  }
}
