// The store refines a map from accounts to current passwords. Hashes of any age and parameters
// stand for the password last set; logins, rehashes and redeployments never change the map.
module PasswordMap {
  import opened Wrappers
  import opened Base64
  import opened Hasher
  import opened Schema
  import opened StoreSpec
  import opened Runs
  import opened Accounts
  import opened TokenHistory

  // The map, told from the operations and their replies alone (and from whose token a reset consumed).
  function Next(cfg: Config, w: World, op: Op, reply: Reply, m: map<Uuid, string>): map<Uuid, string> {
    match (op, reply)
    case (SignUp(req, _, _, _, _), Registered(ref, _)) => m[ref.id := req.password]
    case (Change(user, _, newPassword, _, _), Completed) => m[user := newPassword]
    case (Reset(_, newPassword, _, _), Completed) =>
      (match ConsumedFor(cfg, w, op) case Some(user) => m[user := newPassword] case None => m)
    case _ => m
  }

  function Passwords(cfg: Config, r: Run, n: nat): map<Uuid, string>
    requires n <= |r.ops| == |r.replies| && n < |r.worlds|
  {
    if n == 0 then map[]
    else Next(cfg, r.worlds[n - 1], r.ops[n - 1], r.replies[n - 1], Passwords(cfg, r, n - 1))
  }

  // The encoded hash was made from this password, with some parameters and salt.
  ghost predicate StandsFor(cfg: Config, encoded: string, password: string) {
    exists p: Params, salt :: MadeFrom(cfg, encoded, password, p, salt)
  }

  ghost predicate MadeFrom(cfg: Config, encoded: string, password: string, p: Params, salt: seq<Byte>) {
    p.Runnable() && |salt| == p.saltLength && encoded == Hash(cfg.argon, p, salt, password)
  }

  // A relation between encoded hashes and passwords.
  type Meaning = (string, string) -> bool

  ghost function StandsIn(cfg: Config): Meaning {
    (encoded, password) => StandsFor(cfg, encoded, password)
  }

  ghost predicate Represents(stands: Meaning, t: Tables, m: map<Uuid, string>) {
    t.credentials.Keys == m.Keys && forall id | id in m :: stands(t.credentials[id], m[id])
  }

  // Two different passwords have different keys under the parameters and salt of a stored hash.
  predicate Separates(cfg: Config, encoded: string, p: string, q: string) {
    match DecodePhc(encoded)
    case Err(_) => true
    case Ok(d) => p == q || cfg.argon(p, d.salt, d.params.CostOf()) != cfg.argon(q, d.salt, d.params.CostOf())
  }

  // The password an operation presents, and for which user.
  function PresentedPassword(cfg: Config, w: World, op: Op): Option<(Uuid, string)> {
    match op
    case Login(email, password, _, _) =>
      (match FindUser(w.db.users, ByEmail(email, cfg.issuer)) case Some(u) => Some((u.id, password)) case None => None)
    case Change(user, oldPassword, _, _, _) => Some((user, oldPassword))
    case _ => None
  }

  // What the operation presents does not collide with the current password.
  predicate NoCollision(cfg: Config, w: World, op: Op, m: map<Uuid, string>) {
    match PresentedPassword(cfg, w, op)
    case None => true
    case Some((user, password)) =>
      user in m && user in w.db.credentials ==> Separates(cfg, w.db.credentials[user], password, m[user])
  }

  ghost predicate CollisionFree(cfg: Config, r: Run) {
    && |r.ops| == |r.replies| < |r.worlds|
    && forall i | 0 <= i < |r.ops| :: NoCollision(cfg, r.worlds[i], r.ops[i], Passwords(cfg, r, i))
  }

  // ----- what the step proofs need to know of the hasher -----

  ghost predicate Hashes(stands: Meaning, hasher: PasswordHasher, op: Op) {
    SaltOf(op).Some? ==> HashesWith(stands, hasher, SaltOf(op).value)
  }

  ghost predicate HashesWith(stands: Meaning, hasher: PasswordHasher, salt: seq<Byte>) {
    forall password :: stands(hasher.hash(salt, password), password)
  }

  // Checking what the operation presents against the stored hash compares it with the current password.
  ghost predicate Compares(cfg: Config, w: World, op: Op, m: map<Uuid, string>) {
    match PresentedPassword(cfg, w, op)
    case None => true
    case Some((user, password)) =>
      user in m && user in w.db.credentials ==>
        var verdict := w.hasher.verify(password, w.db.credentials[user]);
        verdict.Verdict? && (verdict.matched <==> password == m[user])
  }

  lemma VerifyComparesPasswords(cfg: Config, hashing: Params, encoded: string, current: string, attempt: string)
    requires HonoursKeyLength(cfg.argon)
    requires StandsFor(cfg, encoded, current) && Separates(cfg, encoded, attempt, current)
    ensures Verify(cfg.argon, hashing, attempt, encoded).Verdict?
    ensures Verify(cfg.argon, hashing, attempt, encoded).matched <==> attempt == current
  {
    var p: Params, salt :| MadeFrom(cfg, encoded, current, p, salt);
    VerifyStored(cfg.argon, hashing, p, salt, current, attempt);
    SizedRoundTrip(p, salt, cfg.argon(current, salt, p.CostOf()));
  }

  ghost predicate Current(cfg: Config, w: World) {
    w.hashing.Runnable() && w.hasher == Argon2idHasher(cfg.argon, w.hashing)
  }

  lemma HasherHashes(cfg: Config, w: World, op: Op)
    requires Current(cfg, w) && Allowed(cfg, w, op)
    ensures Hashes(StandsIn(cfg), w.hasher, op)
  {
    if SaltOf(op).Some? {
      var salt := SaltOf(op).value;
      forall password ensures StandsIn(cfg)(w.hasher.hash(salt, password), password) {
        assert MadeFrom(cfg, Hash(cfg.argon, w.hashing, salt, password), password, w.hashing, salt);
      }
    }
  }

  lemma HasherCompares(cfg: Config, w: World, op: Op, m: map<Uuid, string>)
    requires Current(cfg, w) && HonoursKeyLength(cfg.argon) && Represents(StandsIn(cfg), w.db, m)
    requires NoCollision(cfg, w, op, m)
    ensures Compares(cfg, w, op, m)
  {
    match PresentedPassword(cfg, w, op) {
      case None =>
      case Some((user, password)) =>
        if user in m {
          assert StandsIn(cfg)(w.db.credentials[user], m[user]);
          VerifyComparesPasswords(cfg, w.hashing, w.db.credentials[user], m[user], password);
        }
    }
  }

  // ----- what the operations write to the credentials -----

  lemma LogInCredentials(cfg: Config, hasher: PasswordHasher, t: Tables, now: Time, u: User, password: string,
                         salt: seq<Byte>, needsRehash: bool, faults: Faults)
    ensures var t' := LogIn(cfg, hasher, t, now, u, password, salt, needsRehash, faults).0;
      t'.credentials == t.credentials || t'.credentials == SetHash(t, u.id, hasher.hash(salt, password)).credentials
  {}

  // A login writes no credential, or rewrites one with a password that matched it.
  lemma LoginCredentials(cfg: Config, hasher: PasswordHasher, t: Tables, now: Time, email: string, password: string,
                         salt: seq<Byte>, faults: Faults)
    ensures var t' := Authenticate(cfg, hasher, t, now, email, password, salt, faults).0;
      var found := FindUser(t.users, ByEmail(email, cfg.issuer));
      || t'.credentials == t.credentials
      || (found.Some? && found.value.id in t.credentials
          && t'.credentials == t.credentials[found.value.id := hasher.hash(salt, password)]
          && hasher.verify(password, t.credentials[found.value.id]).Verdict?
          && hasher.verify(password, t.credentials[found.value.id]).matched)
  {
    var found := FindUser(t.users, ByEmail(email, cfg.issuer));
    if found.Some? && found.value.id in t.credentials {
      var verdict := hasher.verify(password, t.credentials[found.value.id]);
      if verdict.Verdict? && verdict.matched {
        LogInCredentials(cfg, hasher, t, now, found.value, password, salt, verdict.needsRehash, faults);
      }
    }
  }

  lemma LoginRepresents(stands: Meaning, cfg: Config, w: World, op: Op, m: map<Uuid, string>)
    requires Represents(stands, w.db, m) && op.Login? && Hashes(stands, w.hasher, op) && Compares(cfg, w, op, m)
    ensures Represents(stands, Apply(cfg, w, op).0, m)
  {
    LoginCredentials(cfg, w.hasher, w.db, w.now, op.email, op.password, op.salt, op.faults);
  }

  lemma StoreCredentials(cfg: Config, hasher: PasswordHasher, t: Tables, user: Uuid, newPassword: string,
                         salt: seq<Byte>, faults: Faults)
    ensures var r := StorePassword(cfg, hasher, t, user, newPassword, salt, faults);
      r.Ok? ==> r.value == SetHash(t, user, hasher.hash(salt, newPassword))
  {}

  lemma ChangeCredentials(cfg: Config, w: World, op: Op)
    requires op.Change?
    ensures var (t', reply) := Apply(cfg, w, op);
      if reply == Completed
      then op.user in w.db.credentials
           && t'.credentials == w.db.credentials[op.user := w.hasher.hash(op.salt, op.newPassword)]
      else t'.credentials == w.db.credentials
  {
    StoreCredentials(cfg, w.hasher, w.db, op.user, op.newPassword, op.salt, op.faults);
  }

  lemma ResetCredentials(cfg: Config, w: World, op: Op)
    requires op.Reset? && Invariant(cfg, w.db)
    ensures var (t', reply) := Apply(cfg, w, op);
      if reply == Completed
      then ConsumedFor(cfg, w, op).Some? && ConsumedFor(cfg, w, op).value in w.db.credentials
           && t'.credentials ==
              w.db.credentials[ConsumedFor(cfg, w, op).value := w.hasher.hash(op.salt, op.newPassword)]
      else t'.credentials == w.db.credentials
  {
    var owner := ConsumedFor(cfg, w, op);
    if owner.Some? {
      var t1 := w.db.(tokens := ConsumeTokens(w.db.tokens, cfg.sha(op.token), PasswordReset, w.now));
      StoreCredentials(cfg, w.hasher, t1, owner.value, op.newPassword, op.salt, op.faults);
      ResetOwnerHasPassword(cfg, w, op);
    }
  }

  // Whoever owns a reset token is a local account, and so has a credential.
  lemma ResetOwnerHasPassword(cfg: Config, w: World, op: Op)
    requires Invariant(cfg, w.db) && op.Reset? && ConsumedFor(cfg, w, op).Some?
    ensures ConsumedFor(cfg, w, op).value in w.db.credentials
    ensures LocalUser(cfg, w.db.users, ConsumedFor(cfg, w, op).value)
  {
    var user := ConsumedFor(cfg, w, op).value;
    var tok :| tok in w.db.tokens && Usable(tok, cfg.sha(op.token), PasswordReset, w.now) && tok.user == user;
    var k :| 0 <= k < |w.db.tokens| && w.db.tokens[k] == tok;
    assert TokenOwnerFits(cfg, w.db.users, w.db.tokens[k]);
    var i :| 0 <= i < |w.db.users| && w.db.users[i].id == user && w.db.users[i].issuer == cfg.issuer;
    assert Account(w.db, w.db.users[i]);
  }

  lemma SignUpCredentials(cfg: Config, w: World, op: Op)
    requires op.SignUp? && Invariant(cfg, w.db)
    ensures var (t', reply) := Apply(cfg, w, op);
      if reply.Registered?
      then t'.credentials == w.db.credentials[reply.ref.id := w.hasher.hash(op.salt, op.req.password)]
      else t'.credentials == w.db.credentials
  {
    if Apply(cfg, w, op).1.Registered? {
      RegisterCreates(cfg, w.db, w.now, op.req, w.hasher.hash(op.salt, op.req.password), op.ids, op.mail, op.faults);
    }
  }

  lemma OthersKeepCredentials(cfg: Config, w: World, op: Op)
    requires !op.Login? && !op.Change? && !op.Reset? && !op.SignUp?
    ensures Apply(cfg, w, op).0.credentials == w.db.credentials
  {}

  lemma UpdateRepresents(stands: Meaning, t: Tables, t': Tables, user: Uuid, hash: string, password: string,
                         m: map<Uuid, string>)
    requires Represents(stands, t, m) && stands(hash, password)
    requires t'.credentials == t.credentials[user := hash]
    ensures Represents(stands, t', m[user := password])
  {}

  // The operations that set a password.
  lemma SignUpRepresents(stands: Meaning, cfg: Config, w: World, op: Op, m: map<Uuid, string>)
    requires Invariant(cfg, w.db) && Represents(stands, w.db, m)
    requires op.SignUp? && HashesWith(stands, w.hasher, op.salt)
    ensures Represents(stands, Apply(cfg, w, op).0, Next(cfg, w, op, Apply(cfg, w, op).1, m))
  {
    var (t', reply) := Apply(cfg, w, op);
    SignUpCredentials(cfg, w, op);
    if reply.Registered? {
      UpdateRepresents(stands, w.db, t', reply.ref.id, w.hasher.hash(op.salt, op.req.password), op.req.password, m);
    }
  }

  lemma ChangeRepresents(stands: Meaning, cfg: Config, w: World, op: Op, m: map<Uuid, string>)
    requires Represents(stands, w.db, m) && op.Change? && HashesWith(stands, w.hasher, op.salt)
    ensures Represents(stands, Apply(cfg, w, op).0, Next(cfg, w, op, Apply(cfg, w, op).1, m))
  {
    var (t', reply) := Apply(cfg, w, op);
    ChangeCredentials(cfg, w, op);
    if reply == Completed {
      UpdateRepresents(stands, w.db, t', op.user, w.hasher.hash(op.salt, op.newPassword), op.newPassword, m);
    }
  }

  lemma ResetRepresents(stands: Meaning, cfg: Config, w: World, op: Op, m: map<Uuid, string>)
    requires Invariant(cfg, w.db) && Represents(stands, w.db, m)
    requires op.Reset? && HashesWith(stands, w.hasher, op.salt)
    ensures Represents(stands, Apply(cfg, w, op).0, Next(cfg, w, op, Apply(cfg, w, op).1, m))
  {
    var (t', reply) := Apply(cfg, w, op);
    ResetCredentials(cfg, w, op);
    if reply == Completed {
      var user := ConsumedFor(cfg, w, op).value;
      UpdateRepresents(stands, w.db, t', user, w.hasher.hash(op.salt, op.newPassword), op.newPassword, m);
    }
  }

  lemma StepRepresents(stands: Meaning, cfg: Config, w: World, op: Op, m: map<Uuid, string>)
    requires Invariant(cfg, w.db) && Represents(stands, w.db, m)
    requires Hashes(stands, w.hasher, op) && Compares(cfg, w, op, m)
    ensures Represents(stands, Apply(cfg, w, op).0, Next(cfg, w, op, Apply(cfg, w, op).1, m))
  {
    if op.Login? { LoginRepresents(stands, cfg, w, op, m); }
    else if op.Change? { ChangeRepresents(stands, cfg, w, op, m); }
    else if op.Reset? { ResetRepresents(stands, cfg, w, op, m); }
    else if op.SignUp? { SignUpRepresents(stands, cfg, w, op, m); }
    else { OthersKeepCredentials(cfg, w, op); }
  }

  // ----- whole runs -----

  lemma CurrentAt(cfg: Config, r: Run, i: nat)
    requires IsRun(cfg, r) && i < |r.ops| && Current(cfg, r.worlds[i])
    ensures Current(cfg, r.worlds[i + 1])
  {
    assert StepAt(cfg, r, i);
  }

  lemma {:induction false} HasherIsCurrent(cfg: Config, r: Run, n: nat)
    requires IsRun(cfg, r) && n <= |r.ops|
    ensures Current(cfg, r.worlds[n])
  {
    if n > 0 {
      HasherIsCurrent(cfg, r, n - 1);
      CurrentAt(cfg, r, n - 1);
    }
  }

  lemma RepresentsAt(cfg: Config, r: Run, i: nat, m: map<Uuid, string>)
    requires IsRun(cfg, r) && i < |r.ops| && HonoursKeyLength(cfg.argon) && Current(cfg, r.worlds[i])
    requires Represents(StandsIn(cfg), r.worlds[i].db, m) && NoCollision(cfg, r.worlds[i], r.ops[i], m)
    ensures Represents(StandsIn(cfg), r.worlds[i + 1].db, Next(cfg, r.worlds[i], r.ops[i], r.replies[i], m))
  {
    RunKeepsInvariant(cfg, r, i);
    assert StepAt(cfg, r, i);
    HasherHashes(cfg, r.worlds[i], r.ops[i]);
    HasherCompares(cfg, r.worlds[i], r.ops[i], m);
    StepRepresents(StandsIn(cfg), cfg, r.worlds[i], r.ops[i], m);
  }

  lemma NoCollisionAt(cfg: Config, r: Run, i: nat)
    requires CollisionFree(cfg, r) && i < |r.ops|
    ensures NoCollision(cfg, r.worlds[i], r.ops[i], Passwords(cfg, r, i))
  {}

  lemma {:induction false} RunRepresents(cfg: Config, r: Run, n: nat)
    requires IsRun(cfg, r) && n <= |r.ops| && HonoursKeyLength(cfg.argon) && CollisionFree(cfg, r)
    ensures Represents(StandsIn(cfg), r.worlds[n].db, Passwords(cfg, r, n))
  {
    if n > 0 {
      RunRepresents(cfg, r, n - 1);
      HasherIsCurrent(cfg, r, n - 1);
      NoCollisionAt(cfg, r, n - 1);
      RepresentsAt(cfg, r, n - 1, Passwords(cfg, r, n - 1));
    }
  }

  // ----- the store answers as the map does -----

  // What a login should answer, from the account, its lock, its verified flag, the map and the calls that fail.
  function ExpectedLogin(cfg: Config, w: World, m: map<Uuid, string>, email: string, password: string, faults: Faults)
    : Reply
  {
    if LookupUser in faults then Failed(Internal)
    else match FindUser(w.db.users, ByEmail(email, cfg.issuer))
      case None => Failed(InvalidCredentials)
      case Some(u) =>
        if BeginTx in faults || CountAttempts in faults then Failed(Internal)
        else if Locked(cfg, w.db, u.id, w.now) then Failed(AccountLocked)
        else if ReadCredential in faults then Failed(Internal)
        else if u.id !in m || m[u.id] != password then Failed(InvalidCredentials)
        else if cfg.requireVerified && !u.emailVerified then Failed(EmailNotVerified)
        else if RecordAttempt in faults || TouchLastLogin in faults || CommitTx in faults then Failed(Internal)
        else LoggedIn(UserRef(u.id, u.issuer, u.subject))
  }

  lemma LoginAnswers(cfg: Config, w: World, op: Op, m: map<Uuid, string>)
    requires w.db.credentials.Keys == m.Keys && Compares(cfg, w, op, m) && op.Login?
    ensures Apply(cfg, w, op).1 == ExpectedLogin(cfg, w, m, op.email, op.password, op.faults)
  {}

  lemma ComparesAt(cfg: Config, r: Run, n: nat)
    requires IsRun(cfg, r) && HonoursKeyLength(cfg.argon) && CollisionFree(cfg, r) && n < |r.ops|
    ensures Passwords(cfg, r, n).Keys == r.worlds[n].db.credentials.Keys
    ensures Compares(cfg, r.worlds[n], r.ops[n], Passwords(cfg, r, n))
  {
    RunRepresents(cfg, r, n);
    HasherIsCurrent(cfg, r, n);
    HasherCompares(cfg, r.worlds[n], r.ops[n], Passwords(cfg, r, n));
  }

  // Whichever calls fail, the reply is the expected one. In particular, with none failing, Authenticate succeeds
  // exactly when the account exists, is not locked, is verified if that is required, and the password is the
  // one last set.
  lemma LoginRefines(cfg: Config, r: Run, n: nat)
    requires IsRun(cfg, r) && HonoursKeyLength(cfg.argon) && CollisionFree(cfg, r)
    requires n < |r.ops| && r.ops[n].Login?
    ensures var op := r.ops[n];
      r.replies[n] == ExpectedLogin(cfg, r.worlds[n], Passwords(cfg, r, n), op.email, op.password, op.faults)
    ensures Passwords(cfg, r, n + 1) == Passwords(cfg, r, n)
  {
    ComparesAt(cfg, r, n);
    assert StepAt(cfg, r, n);
    LoginAnswers(cfg, r.worlds[n], r.ops[n], Passwords(cfg, r, n));
  }

  // The user's hash was made from the password with the present parameters.
  ghost predicate UpToDate(cfg: Config, w: World, user: Uuid, password: string) {
    user in w.db.credentials && exists salt :: MadeFrom(cfg, w.db.credentials[user], password, w.hashing, salt)
  }

  lemma MadeDecodes(cfg: Config, encoded: string, password: string, p: Params, salt: seq<Byte>)
    requires HonoursKeyLength(cfg.argon) && MadeFrom(cfg, encoded, password, p, salt)
    ensures DecodePhc(encoded) == Ok(Decoded(p, salt, cfg.argon(password, salt, p.CostOf())))
  {
    SizedRoundTrip(p, salt, cfg.argon(password, salt, p.CostOf()));
  }

  // What a successful login does to the hash it matched: nothing if the parameters are the present ones,
  // else it makes a new one with those, unless the salt or the update fails.
  lemma LoginRehashes(cfg: Config, w: World, op: Op)
    requires op.Login? && Apply(cfg, w, op).1.LoggedIn?
    ensures var u := FindUser(w.db.users, ByEmail(op.email, cfg.issuer));
      && u.Some? && u.value.id in w.db.credentials
      && w.hasher.verify(op.password, w.db.credentials[u.value.id]).Verdict?
      && Apply(cfg, w, op).1.ref.id == u.value.id
      && Apply(cfg, w, op).0.credentials ==
         if w.hasher.verify(op.password, w.db.credentials[u.value.id]).needsRehash
            && op.faults !! {GenerateSalt, UpdateHash}
         then w.db.credentials[u.value.id := w.hasher.hash(op.salt, op.password)] else w.db.credentials
  {}

  lemma LoginRehashesAt(cfg: Config, r: Run, n: nat)
    requires IsRun(cfg, r) && n < |r.ops| && r.ops[n].Login? && r.replies[n].LoggedIn?
    ensures var w, op := r.worlds[n], r.ops[n];
      var u := r.replies[n].ref.id;
      && FindUser(w.db.users, ByEmail(op.email, cfg.issuer)).Some?
      && FindUser(w.db.users, ByEmail(op.email, cfg.issuer)).value.id == u && u in w.db.credentials
      && w.hasher.verify(op.password, w.db.credentials[u]).Verdict?
      && r.worlds[n + 1].hashing == w.hashing && |op.salt| == w.hashing.saltLength
      && r.worlds[n + 1].db.credentials ==
         if w.hasher.verify(op.password, w.db.credentials[u]).needsRehash && op.faults !! {GenerateSalt, UpdateHash}
         then w.db.credentials[u := w.hasher.hash(op.salt, op.password)] else w.db.credentials
  {
    assert StepAt(cfg, r, n);
    LoginRehashes(cfg, r.worlds[n], r.ops[n]);
  }

  // Transparent rehash over runs: a successful login leaves the user's hash up to date, unless the salt or the
  // update fails; it writes no hash that was up to date before, and no other user's.
  lemma RehashExactly(cfg: Config, r: Run, n: nat)
    requires IsRun(cfg, r) && HonoursKeyLength(cfg.argon) && CollisionFree(cfg, r)
    requires n < |r.ops| && r.ops[n].Login? && r.replies[n].LoggedIn?
    ensures var w, w', u, password := r.worlds[n], r.worlds[n + 1], r.replies[n].ref.id, r.ops[n].password;
      && (r.ops[n].faults !! {GenerateSalt, UpdateHash} ==> UpToDate(cfg, w', u, password))
      && (UpToDate(cfg, w, u, password) || !(r.ops[n].faults !! {GenerateSalt, UpdateHash}) ==>
            w'.db.credentials == w.db.credentials)
      && w'.db.credentials.Keys == w.db.credentials.Keys
      && (forall other | other in w.db.credentials && other != u ::
            w'.db.credentials[other] == w.db.credentials[other])
  {
    LoginRehashesAt(cfg, r, n);
    HasherIsCurrent(cfg, r, n);
    var w, op, u := r.worlds[n], r.ops[n], r.replies[n].ref.id;
    var p, salt := LoginMatches(cfg, r, n);
    MadeDecodes(cfg, w.db.credentials[u], op.password, p, salt);
    RehashAsked(cfg, w, u, op.password, p, salt);
    if w.hasher.verify(op.password, w.db.credentials[u]).needsRehash {
      if op.faults !! {GenerateSalt, UpdateHash} {
        assert MadeFrom(cfg, r.worlds[n + 1].db.credentials[u], op.password, w.hashing, op.salt);
      }
    } else {
      assert MadeFrom(cfg, w.db.credentials[u], op.password, w.hashing, salt);
    }
  }

  // The hash a successful login matched was made from the password it presented.
  lemma LoginMatches(cfg: Config, r: Run, n: nat) returns (p: Params, salt: seq<Byte>)
    requires IsRun(cfg, r) && HonoursKeyLength(cfg.argon) && CollisionFree(cfg, r)
    requires n < |r.ops| && r.ops[n].Login? && r.replies[n].LoggedIn?
    requires r.replies[n].ref.id in r.worlds[n].db.credentials
    ensures MadeFrom(cfg, r.worlds[n].db.credentials[r.replies[n].ref.id], r.ops[n].password, p, salt)
  {
    LoginRefines(cfg, r, n);
    RunRepresents(cfg, r, n);
    var u := r.replies[n].ref.id;
    assert StandsIn(cfg)(r.worlds[n].db.credentials[u], Passwords(cfg, r, n)[u]);
    p, salt :| MadeFrom(cfg, r.worlds[n].db.credentials[u], r.ops[n].password, p, salt);
  }

  // Verification asks for a rehash of a matching hash exactly if its parameters are not the present ones.
  lemma RehashAsked(cfg: Config, w: World, user: Uuid, password: string, p: Params, salt: seq<Byte>)
    requires HonoursKeyLength(cfg.argon) && Current(cfg, w) && user in w.db.credentials
    requires MadeFrom(cfg, w.db.credentials[user], password, p, salt)
    ensures w.hasher.verify(password, w.db.credentials[user]) == Verdict(true, p != w.hashing)
    ensures UpToDate(cfg, w, user, password) <==> p == w.hashing
  {
    VerifyStored(cfg.argon, w.hashing, p, salt, password, password);
    MadeDecodes(cfg, w.db.credentials[user], password, p, salt);
    if UpToDate(cfg, w, user, password) {
      var other :| MadeFrom(cfg, w.db.credentials[user], password, w.hashing, other);
      MadeDecodes(cfg, w.db.credentials[user], password, w.hashing, other);
    }
  }

  function ExpectedChange(cfg: Config, w: World, m: map<Uuid, string>, user: Uuid, oldPassword: string,
                          newPassword: string, faults: Faults): Reply
  {
    if ReadCredential in faults then Failed(Internal)
    else if user !in m then Failed(UserNotFound)
    else if m[user] != oldPassword then Failed(InvalidCredentials)
    else if ReadUser in faults || FindUser(w.db.users, ById(user)).None? then Failed(Internal)
    else if !Acceptable(cfg, w, user, newPassword) then Failed(PolicyViolation)
    else if GenerateSalt in faults || UpdateHash in faults then Failed(Internal)
    else Completed
  }

  lemma ChangeAnswers(cfg: Config, w: World, op: Op, m: map<Uuid, string>)
    requires w.db.credentials.Keys == m.Keys && Compares(cfg, w, op, m) && op.Change?
    ensures Apply(cfg, w, op).1 == ExpectedChange(cfg, w, m, op.user, op.oldPassword, op.newPassword, op.faults)
  {
    var u := FindUser(w.db.users, ById(op.user));
    if u.Some? { WordsOfUser(cfg, u.value, op.newPassword); }
  }

  // ChangePassword succeeds exactly for the current password and a new one the policy accepts, and then sets it.
  lemma ChangeRefines(cfg: Config, r: Run, n: nat)
    requires IsRun(cfg, r) && HonoursKeyLength(cfg.argon) && CollisionFree(cfg, r)
    requires n < |r.ops| && r.ops[n].Change?
    ensures var op, m := r.ops[n], Passwords(cfg, r, n);
      && r.replies[n] == ExpectedChange(cfg, r.worlds[n], m, op.user, op.oldPassword, op.newPassword, op.faults)
      && Passwords(cfg, r, n + 1) == if r.replies[n] == Completed then m[op.user := op.newPassword] else m
  {
    ComparesAt(cfg, r, n);
    assert StepAt(cfg, r, n);
    ChangeAnswers(cfg, r.worlds[n], r.ops[n], Passwords(cfg, r, n));
  }

  // A reset with a token that traces back to a request of `user` completes exactly when the policy accepts
  // the new password and no call it depends on fails, and then sets it for that user.
  lemma ResetRefines(cfg: Config, r: Run, n: nat, i: nat, user: Uuid)
    requires IsRun(cfg, r) && n < |r.ops| && r.ops[n].Reset? && ConsumeToken !in r.ops[n].faults
    requires Traces(cfg, r, i, n, user, cfg.sha(r.ops[n].token), PasswordReset)
    ensures var op, m := r.ops[n], Passwords(cfg, r, n);
      var accepted := Acceptable(cfg, r.worlds[n], user, op.newPassword);
      && (r.replies[n] == Completed <==> accepted && ResetUndisturbed(op.faults))
      && (ReadUser !in op.faults && !accepted ==> r.replies[n] == Failed(PolicyViolation))
      && Passwords(cfg, r, n + 1) == if r.replies[n] == Completed then m[user := op.newPassword] else m
  {
    ConsumedExactly(cfg, r, n, user);
    ResetReplies(cfg, r, n, user);
  }

  lemma ResetReplies(cfg: Config, r: Run, n: nat, user: Uuid)
    requires IsRun(cfg, r) && n < |r.ops| && r.ops[n].Reset?
    requires ConsumedFor(cfg, r.worlds[n], r.ops[n]) == Some(user)
    ensures var op, accepted := r.ops[n], Acceptable(cfg, r.worlds[n], user, r.ops[n].newPassword);
      && (r.replies[n] == Completed <==> accepted && ResetUndisturbed(op.faults))
      && (ReadUser !in op.faults && !accepted ==> r.replies[n] == Failed(PolicyViolation))
  {
    RunKeepsInvariant(cfg, r, n);
    ResetOwnerHasPassword(cfg, r.worlds[n], r.ops[n]);
    LocalIsFound(cfg, r.worlds[n].db.users, user);
    ResetAnswersAt(cfg, r, n);
  }

  lemma ResetAnswersAt(cfg: Config, r: Run, n: nat)
    requires IsRun(cfg, r) && n < |r.ops| && r.ops[n].Reset?
    ensures var w, op := r.worlds[n], r.ops[n];
      var owner := ConsumedFor(cfg, w, op);
      && (r.replies[n] == Completed <==>
            ResetUndisturbed(op.faults) && owner.Some? && Acceptable(cfg, w, owner.value, op.newPassword))
      && ((owner.Some? && ReadUser !in op.faults && FindUser(w.db.users, ById(owner.value)).Some?
           && !Acceptable(cfg, w, owner.value, op.newPassword)) ==> r.replies[n] == Failed(PolicyViolation))
  {
    assert StepAt(cfg, r, n);
    ResetAnswers(cfg, r.worlds[n], r.ops[n]);
  }

  lemma LocalIsFound(cfg: Config, users: seq<User>, id: Uuid)
    requires LocalUser(cfg, users, id)
    ensures FindUser(users, ById(id)).Some?
  {
    var i :| 0 <= i < |users| && users[i].id == id && users[i].issuer == cfg.issuer;
    assert users[i] in users && Matches(users[i], ById(id));
  }

  // Any other reset is refused and sets nothing.
  lemma UntracedResetFails(cfg: Config, r: Run, n: nat)
    requires IsRun(cfg, r) && n < |r.ops| && r.ops[n].Reset? && ConsumeToken !in r.ops[n].faults
    requires forall i: nat, user: Uuid :: !Traces(cfg, r, i, n, user, cfg.sha(r.ops[n].token), PasswordReset)
    ensures r.replies[n] == Failed(TokenInvalid) && Passwords(cfg, r, n + 1) == Passwords(cfg, r, n)
  {
    var owner := ConsumedFor(cfg, r.worlds[n], r.ops[n]);
    if owner.Some? { ConsumedExactly(cfg, r, n, owner.value); }
    NoOwnerReply(cfg, r, n);
  }
}
