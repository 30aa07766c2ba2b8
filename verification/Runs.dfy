// Runs of the store: any sequence of operations, clock ticks and redeployments,
// one operation at a time, each with any set of failing calls.
module Runs {
  import opened Wrappers
  import opened Base64
  import opened Hasher
  import opened Token
  import opened Schema
  import opened StoreSpec

  // `hasher` is the Argon2id hasher with the parameters `hashing`.
  datatype World = World(now: Time, hashing: Params, hasher: PasswordHasher, db: Tables)

  datatype Op =
    | Tick(elapsed: nat)
    | Redeploy(newHashing: Params)
    | FederatedLogin(identity: Identity, ids: FreshIds, faults: Faults)
    | SignUp(req: RegisterRequest, salt: seq<Byte>, ids: FreshIds, mail: Option<Verification>, faults: Faults)
    | Login(email: string, password: string, salt: seq<Byte>, faults: Faults)
    | Change(user: Uuid, oldPassword: string, newPassword: string, salt: seq<Byte>, faults: Faults)
    | RequestReset(email: string, raw: seq<Byte>, faults: Faults)
    | Reset(token: string, newPassword: string, salt: seq<Byte>, faults: Faults)
    | RequestVerification(user: Uuid, raw: seq<Byte>, faults: Faults)
    | Confirm(token: string, faults: Faults)

  datatype Reply =
    Nothing | LoggedIn(ref: UserRef) | Registered(ref: UserRef, plaintext: string)
    | Issued(plaintext: string) | Completed | Failed(error: Error)

  function DoneReply(r: Result<(), Error>): Reply {
    match r case Ok(_) => Completed case Err(e) => Failed(e)
  }

  function LoginReply(r: Result<UserRef, Error>): Reply {
    match r case Ok(ref) => LoggedIn(ref) case Err(e) => Failed(e)
  }

  function IssuedReply(r: Result<string, Error>): Reply {
    match r case Ok(t) => Issued(t) case Err(e) => Failed(e)
  }

  // What an operation does to the tables, and its reply.
  function Apply(cfg: Config, w: World, op: Op): (Tables, Reply) {
    match op
    case Tick(_) => (w.db, Nothing)
    case Redeploy(_) => (w.db, Nothing)
    case FederatedLogin(identity, ids, faults) =>
      var (t, r) := Provision(cfg.tenantName, w.db, w.now, identity, ids, false, faults);
      (t, match r case Ok(ref) => LoggedIn(ref) case Err(_) => Failed(Internal))
    case SignUp(req, salt, ids, mail, faults) =>
      var (t, r) := Register(cfg, w.hasher, w.db, w.now, req, salt, ids, mail, faults);
      (t, match r case Ok((ref, token)) => Registered(ref, token) case Err(e) => Failed(e))
    case Login(email, password, salt, faults) =>
      var (t, r) := Authenticate(cfg, w.hasher, w.db, w.now, email, password, salt, faults);
      (t, LoginReply(r))
    case Change(user, oldPassword, newPassword, salt, faults) =>
      var (t, r) := ChangePassword(cfg, w.hasher, w.db, w.now, user, oldPassword, newPassword, salt, faults);
      (t, DoneReply(r))
    case RequestReset(email, raw, faults) =>
      var (t, r) := InitiatePasswordReset(cfg, w.db, w.now, email, raw, faults);
      (t, IssuedReply(r))
    case Reset(token, newPassword, salt, faults) =>
      var (t, r) := CompletePasswordReset(cfg, w.hasher, w.db, w.now, token, newPassword, salt, faults);
      (t, DoneReply(r))
    case RequestVerification(user, raw, faults) =>
      var (t, r) := IssueToken(cfg, w.db, w.now, user, EmailVerification, raw, false, faults);
      (t, IssuedReply(r))
    case Confirm(token, faults) =>
      var (t, r) := VerifyEmail(cfg, w.db, w.now, token, faults);
      (t, DoneReply(r))
  }

  function Step(cfg: Config, w: World, op: Op): World {
    World(if op.Tick? then w.now + op.elapsed else w.now,
          if op.Redeploy? then op.newHashing else w.hashing,
          if op.Redeploy? then Argon2idHasher(cfg.argon, op.newHashing) else w.hasher,
          Apply(cfg, w, op).0)
  }

  // The random bytes an operation would make a token from.
  function RawOf(op: Op): Option<seq<Byte>> {
    match op
    case SignUp(_, _, _, Some(v), _) => Some(v.raw)
    case RequestReset(_, raw, _) => Some(raw)
    case RequestVerification(_, raw, _) => Some(raw)
    case _ => None
  }

  predicate FreshToken(cfg: Config, w: World, op: Op) {
    match RawOf(op)
    case None => true
    case Some(raw) => forall tok | tok in w.db.tokens :: tok.hash != GenerateToken(cfg.sha, raw).hash
  }

  // The salt an operation would hash with.
  function SaltOf(op: Op): Option<seq<Byte>> {
    match op
    case SignUp(_, salt, _, _, _) => Some(salt)
    case Login(_, _, salt, _) => Some(salt)
    case Change(_, _, _, salt, _) => Some(salt)
    case Reset(_, _, salt, _) => Some(salt)
    case _ => None
  }

  // What the code gets from its surroundings: salts of the configured length, runnable hashing
  // parameters, token hashes not seen before, federated identities of other issuers.
  predicate Allowed(cfg: Config, w: World, op: Op) {
    && FreshToken(cfg, w, op)
    && (SaltOf(op).Some? ==> |SaltOf(op).value| == w.hashing.saltLength)
    && (op.Redeploy? ==> op.newHashing.Runnable())
    && (op.FederatedLogin? ==> op.identity.issuer != cfg.issuer)
  }

  // A run: the operations, their replies, and the worlds before, between and after them.
  datatype Run = Run(worlds: seq<World>, ops: seq<Op>, replies: seq<Reply>)

  ghost predicate StepAt(cfg: Config, r: Run, i: nat) {
    && i < |r.ops| == |r.replies| && |r.worlds| == |r.ops| + 1
    && Allowed(cfg, r.worlds[i], r.ops[i])
    && r.replies[i] == Apply(cfg, r.worlds[i], r.ops[i]).1
    && r.worlds[i + 1] == Step(cfg, r.worlds[i], r.ops[i])
  }

  // Runs start from empty tables.
  ghost predicate IsRun(cfg: Config, r: Run) {
    && |r.replies| == |r.ops| && |r.worlds| == |r.ops| + 1
    && r.worlds[0].db == EMPTY && r.worlds[0].hashing.Runnable()
    && r.worlds[0].hasher == Argon2idHasher(cfg.argon, r.worlds[0].hashing)
    && forall i {:trigger StepAt(cfg, r, i)} | 0 <= i < |r.ops| :: StepAt(cfg, r, i)
  }

  // Any operation that is allowed in the last world of a run extends it, in one way.
  function Extend(cfg: Config, r: Run, op: Op): Run
    requires |r.worlds| > 0
  {
    var w := r.worlds[|r.worlds| - 1];
    Run(r.worlds + [Step(cfg, w, op)], r.ops + [op], r.replies + [Apply(cfg, w, op).1])
  }

  lemma StepUnchanged(cfg: Config, r: Run, longer: Run, i: nat)
    requires StepAt(cfg, r, i)
    requires |longer.worlds| == |r.worlds| + 1 && |longer.ops| == |r.ops| + 1 && |longer.replies| == |r.replies| + 1
    requires longer.worlds[i] == r.worlds[i] && longer.worlds[i + 1] == r.worlds[i + 1]
    requires longer.ops[i] == r.ops[i] && longer.replies[i] == r.replies[i]
    ensures StepAt(cfg, longer, i)
  {}

  lemma LastStep(cfg: Config, r: Run, op: Op)
    requires |r.ops| == |r.replies| && |r.worlds| == |r.ops| + 1 && Allowed(cfg, r.worlds[|r.ops|], op)
    ensures StepAt(cfg, Extend(cfg, r, op), |r.ops|)
  {}

  lemma RunsExtend(cfg: Config, r: Run, op: Op)
    requires IsRun(cfg, r) && Allowed(cfg, r.worlds[|r.ops|], op)
    ensures IsRun(cfg, Extend(cfg, r, op))
  {
    var longer := Extend(cfg, r, op);
    forall i | 0 <= i < |longer.ops| ensures StepAt(cfg, longer, i) {
      if i < |r.ops| {
        assert StepAt(cfg, r, i);
        StepUnchanged(cfg, r, longer, i);
      } else {
        LastStep(cfg, r, op);
      }
    }
  }

  lemma ClockStep(cfg: Config, r: Run, i: nat)
    requires IsRun(cfg, r) && i < |r.ops|
    ensures r.worlds[i].now <= r.worlds[i + 1].now
  {
    assert StepAt(cfg, r, i);
  }

  lemma {:induction false} ClockRises(cfg: Config, r: Run, i: nat, j: nat)
    requires IsRun(cfg, r) && i <= j <= |r.ops|
    ensures r.worlds[i].now <= r.worlds[j].now
    decreases j
  {
    if i < j {
      ClockRises(cfg, r, i, j - 1);
      ClockStep(cfg, r, j - 1);
    }
  }
}
