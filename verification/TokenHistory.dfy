// Tokens over whole runs: where a token comes from, what ends it, and that it works at most once.
module TokenHistory {
  import opened Wrappers
  import opened Base64
  import opened Hasher
  import opened Token
  import opened Schema
  import opened StoreSpec
  import opened Runs
  import opened Accounts

  function Expiry(cfg: Config, kind: TokenKind): Time {
    if kind.PasswordReset? then cfg.resetExpiry else cfg.verifyExpiry
  }

  function HashOf(cfg: Config, raw: seq<Byte>): seq<Byte> { GenerateToken(cfg.sha, raw).hash }

  // Whom an operation would issue a token to, and of which kind.
  function Recipient(cfg: Config, w: World, op: Op): Option<(Uuid, TokenKind)> {
    match op
    case SignUp(_, _, ids, Some(_), _) => Some((ids.user, EmailVerification))
    case RequestReset(email, _, faults) =>
      (match FindUser(w.db.users, ByEmail(email, cfg.issuer))
       case None => None
       case Some(u) => if LookupUser in faults then None else Some((u.id, PasswordReset)))
    case RequestVerification(user, _, _) => Some((user, EmailVerification))
    case _ => None
  }

  function FaultsOf(op: Op): Faults {
    if op.Tick? || op.Redeploy? then {} else op.faults
  }

  // The operation issued exactly this row, and told its plaintext.
  ghost predicate Issues(cfg: Config, w: World, op: Op, reply: Reply, row: TokenRow) {
    && RawOf(op).Some? && Recipient(cfg, w, op) == Some((row.user, row.kind))
    && row.hash == HashOf(cfg, RawOf(op).value)
    && row.expiresAt == w.now + Expiry(cfg, row.kind)
    && var plaintext := GenerateToken(cfg.sha, RawOf(op).value).plaintext;
       && (if op.SignUp? then reply.Registered? && reply.ref.id == row.user else reply.Issued?)
       && reply.plaintext == plaintext
  }

  // The operation ends every live token of the user and kind: it got as far as asking for a new one,
  // or it changed the password, and its invalidation ran.
  ghost predicate Supersedes(cfg: Config, w: World, op: Op, reply: Reply, user: Uuid, kind: TokenKind) {
    && InvalidateOld !in FaultsOf(op)
    && match op
       case RequestReset(_, _, _) => Recipient(cfg, w, op) == Some((user, kind))
       case RequestVerification(_, _, _) => Recipient(cfg, w, op) == Some((user, kind))
       case Change(u, _, _, _, _) => u == user && kind.PasswordReset? && reply == Completed
       case _ => false
  }

  // The operation presents a token that is usable, and consumes it; what follows may still fail.
  function Presented(cfg: Config, op: Op): Option<(seq<Byte>, TokenKind)> {
    match op
    case Reset(token, _, _, faults) => if ConsumeToken in faults then None else Some((cfg.sha(token), PasswordReset))
    case Confirm(token, faults) => if ConsumeToken in faults then None else Some((cfg.sha(token), EmailVerification))
    case _ => None
  }

  function ConsumedFor(cfg: Config, w: World, op: Op): Option<Uuid> {
    match Presented(cfg, op)
    case None => None
    case Some((hash, kind)) => TokenOwner(w.db.tokens, hash, kind, w.now)
  }

  // ----- one step -----

  // Rows stay, and consumed_at is written at most once.
  ghost predicate RowEvolves(a: TokenRow, b: TokenRow) {
    && b.user == a.user && b.hash == a.hash && b.kind == a.kind && b.expiresAt == a.expiresAt
    && (a.consumedAt.Some? ==> b.consumedAt == a.consumedAt)
  }

  ghost predicate TokensEvolve(ts: seq<TokenRow>, ts': seq<TokenRow>) {
    |ts| <= |ts'| && forall i | 0 <= i < |ts| :: RowEvolves(ts[i], ts'[i])
  }

  lemma IssueEvolves(cfg: Config, t: Tables, now: Time, user: Uuid, kind: TokenKind, raw: seq<Byte>, inTx: bool,
                     faults: Faults)
    ensures var (t', r) := IssueToken(cfg, t, now, user, kind, raw, inTx, faults);
      && TokensEvolve(t.tokens, t'.tokens)
      && (r.Err? ==> |t'.tokens| == |t.tokens|)
      && (r.Ok? ==> r.value == GenerateToken(cfg.sha, raw).plaintext)
      && (r.Ok? ==> |t'.tokens| == |t.tokens| + 1)
      && (r.Ok? ==> t'.tokens[|t.tokens|] == TokenRow(user, HashOf(cfg, raw), kind, now + Expiry(cfg, kind), None))
      && (InvalidateOld !in faults ==> forall i | 0 <= i < |t.tokens| :: !Live(t'.tokens[i], user, kind))
  {}

  lemma SignUpTokens(cfg: Config, w: World, op: Op)
    requires Invariant(cfg, w.db) && op.SignUp? && Apply(cfg, w, op).1.Registered?
    ensures TokenStep(cfg, w, op, Apply(cfg, w, op).1, Apply(cfg, w, op).0.tokens)
  {
    var hash := w.hasher.hash(op.salt, op.req.password);
    RegisterUnfolds(cfg, w.db, w.now, op.req, hash, op.ids, op.mail, op.faults);
    var u := NewUser(LocalIdentity(cfg, op.req), op.ids, w.now);
    CreateLocalPrepares(cfg, w.db, w.now, u, op.ids, op.faults);
    if op.mail.Some? {
      var t1 := Create(cfg.tenantName, w.db, w.now, u, op.ids, true, op.faults).0;
      var t2 := t1.(credentials := t1.credentials[u.id := hash]);
      IssueEvolves(cfg, t2, w.now, u.id, EmailVerification, op.mail.value.raw, true, op.faults);
    }
  }

  lemma CreateKeepsTokens(name: string, t: Tables, now: Time, u: User, ids: FreshIds, inTx: bool, faults: Faults)
    ensures Create(name, t, now, u, ids, inTx, faults).0.tokens == t.tokens
  {}

  lemma LoginKeepsTokens(cfg: Config, hasher: PasswordHasher, t: Tables, now: Time, email: string, password: string,
                         salt: seq<Byte>, faults: Faults)
    ensures Authenticate(cfg, hasher, t, now, email, password, salt, faults).0.tokens == t.tokens
  {}

  lemma StorePasswordKeepsTokens(cfg: Config, hasher: PasswordHasher, t: Tables, user: Uuid, newPassword: string,
                                 salt: seq<Byte>, faults: Faults)
    ensures var r := StorePassword(cfg, hasher, t, user, newPassword, salt, faults);
      r.Ok? ==> r.value.tokens == t.tokens
  {}

  // At most one row is added, live and issued by the operation; the others change only as allowed.
  ghost predicate TokenStep(cfg: Config, w: World, op: Op, reply: Reply, ts': seq<TokenRow>) {
    && TokensEvolve(w.db.tokens, ts') && |ts'| <= |w.db.tokens| + 1
    && (|ts'| > |w.db.tokens| ==> ts'[|w.db.tokens|].consumedAt.None? && Issues(cfg, w, op, reply, ts'[|w.db.tokens|]))
  }

  lemma RequestTokens(cfg: Config, w: World, op: Op)
    requires op.RequestReset? || op.RequestVerification?
    ensures TokenStep(cfg, w, op, Apply(cfg, w, op).1, Apply(cfg, w, op).0.tokens)
  {
    if op.RequestReset? {
      var found := FindUser(w.db.users, ByEmail(op.email, cfg.issuer));
      if found.Some? { IssueEvolves(cfg, w.db, w.now, found.value.id, PasswordReset, op.raw, false, op.faults); }
    } else {
      IssueEvolves(cfg, w.db, w.now, op.user, EmailVerification, op.raw, false, op.faults);
    }
  }

  lemma FixedTokens(cfg: Config, w: World, op: Op)
    requires || op.Tick? || op.Redeploy? || op.FederatedLogin? || op.Login?
             || (op.SignUp? && !Apply(cfg, w, op).1.Registered?)
    ensures Apply(cfg, w, op).0.tokens == w.db.tokens
  {
    if op.FederatedLogin? {
      CreateKeepsTokens(cfg.tenantName, w.db, w.now, NewUser(op.identity, op.ids, w.now), op.ids, false, op.faults);
    } else if op.Login? {
      LoginKeepsTokens(cfg, w.hasher, w.db, w.now, op.email, op.password, op.salt, op.faults);
    }
  }

  lemma ChangeTokens(cfg: Config, w: World, op: Op)
    requires op.Change?
    ensures TokenStep(cfg, w, op, Apply(cfg, w, op).1, Apply(cfg, w, op).0.tokens)
  {
    StorePasswordKeepsTokens(cfg, w.hasher, w.db, op.user, op.newPassword, op.salt, op.faults);
  }

  lemma StepTokens(cfg: Config, w: World, op: Op)
    requires Invariant(cfg, w.db)
    ensures TokenStep(cfg, w, op, Apply(cfg, w, op).1, Apply(cfg, w, op).0.tokens)
  {
    if op.SignUp? && Apply(cfg, w, op).1.Registered? { SignUpTokens(cfg, w, op); }
    else if op.Change? { ChangeTokens(cfg, w, op); }
    else if op.RequestReset? || op.RequestVerification? { RequestTokens(cfg, w, op); }
    else if op.Reset? { ResetTokens(cfg, w, op); }
    else if op.Confirm? { ConfirmTokens(cfg, w, op); }
    else { FixedTokens(cfg, w, op); }
  }

  lemma ResetTokens(cfg: Config, w: World, op: Op)
    requires op.Reset?
    ensures Apply(cfg, w, op).0.tokens ==
      if ConsumedFor(cfg, w, op).Some? then ConsumeTokens(w.db.tokens, cfg.sha(op.token), PasswordReset, w.now)
      else w.db.tokens
  {
    var owner := ConsumedFor(cfg, w, op);
    if owner.Some? {
      var t1 := w.db.(tokens := ConsumeTokens(w.db.tokens, cfg.sha(op.token), PasswordReset, w.now));
      StorePasswordKeepsTokens(cfg, w.hasher, t1, owner.value, op.newPassword, op.salt, op.faults);
    }
  }

  lemma ConfirmTokens(cfg: Config, w: World, op: Op)
    requires op.Confirm?
    ensures Apply(cfg, w, op).0.tokens ==
      if ConsumedFor(cfg, w, op).Some? then ConsumeTokens(w.db.tokens, cfg.sha(op.token), EmailVerification, w.now)
      else w.db.tokens
  {}

  lemma StepSupersedes(cfg: Config, w: World, op: Op, user: Uuid, kind: TokenKind)
    requires Supersedes(cfg, w, op, Apply(cfg, w, op).1, user, kind)
    ensures var ts' := Apply(cfg, w, op).0.tokens;
      |w.db.tokens| <= |ts'| && forall i | 0 <= i < |w.db.tokens| :: !Live(ts'[i], user, kind)
  {
    match op {
      case Change(u, _, newPassword, salt, faults) =>
        StorePasswordKeepsTokens(cfg, w.hasher, w.db, u, newPassword, salt, faults);
      case RequestReset(email, raw, faults) =>
        IssueEvolves(cfg, w.db, w.now, user, PasswordReset, raw, false, faults);
      case RequestVerification(u, raw, faults) =>
        IssueEvolves(cfg, w.db, w.now, u, EmailVerification, raw, false, faults);
    }
  }

  // Consuming leaves no usable row of that hash and kind.
  lemma StepConsumes(cfg: Config, w: World, op: Op)
    requires ConsumedFor(cfg, w, op).Some?
    ensures var (hash, kind) := Presented(cfg, op).value;
      && Apply(cfg, w, op).0.tokens == ConsumeTokens(w.db.tokens, hash, kind, w.now)
      && exists i | 0 <= i < |w.db.tokens| :: Usable(w.db.tokens[i], hash, kind, w.now)
           && w.db.tokens[i].user == ConsumedFor(cfg, w, op).value
  {
    if op.Reset? { ResetTokens(cfg, w, op); } else { ConfirmTokens(cfg, w, op); }
    var (hash, kind) := Presented(cfg, op).value;
    var tok :| tok in w.db.tokens && Usable(tok, hash, kind, w.now) && tok.user == ConsumedFor(cfg, w, op).value;
    var i :| 0 <= i < |w.db.tokens| && w.db.tokens[i] == tok;
  }

  // ----- the same facts about operation i of a run -----

  lemma TokensAt(cfg: Config, r: Run, i: nat)
    requires IsRun(cfg, r) && i < |r.ops|
    ensures var ts, ts' := r.worlds[i].db.tokens, r.worlds[i + 1].db.tokens;
      && TokensEvolve(ts, ts') && |ts'| <= |ts| + 1
      && (|ts'| > |ts| ==> ts'[|ts|].consumedAt.None? && Issues(cfg, r.worlds[i], r.ops[i], r.replies[i], ts'[|ts|]))
      && (|ts'| > |ts| ==> forall tok | tok in ts :: tok.hash != ts'[|ts|].hash)
  {
    RunKeepsInvariant(cfg, r, i);
    assert StepAt(cfg, r, i);
    StepTokens(cfg, r.worlds[i], r.ops[i]);
  }

  lemma SupersedesAt(cfg: Config, r: Run, i: nat, user: Uuid, kind: TokenKind)
    requires IsRun(cfg, r) && i < |r.ops| && Supersedes(cfg, r.worlds[i], r.ops[i], r.replies[i], user, kind)
    ensures var ts, ts' := r.worlds[i].db.tokens, r.worlds[i + 1].db.tokens;
      |ts| <= |ts'| && forall x | 0 <= x < |ts| :: !Live(ts'[x], user, kind)
  {
    assert StepAt(cfg, r, i);
    StepSupersedes(cfg, r.worlds[i], r.ops[i], user, kind);
  }

  // Operation i consumes a token of `user`.
  ghost predicate Consumes(cfg: Config, r: Run, i: nat, hash: seq<Byte>, kind: TokenKind) {
    && i < |r.ops| && i < |r.worlds|
    && Presented(cfg, r.ops[i]) == Some((hash, kind))
    && ConsumedFor(cfg, r.worlds[i], r.ops[i]).Some?
  }

  lemma ConsumesAt(cfg: Config, r: Run, i: nat, hash: seq<Byte>, kind: TokenKind) returns (x: nat)
    requires IsRun(cfg, r) && Consumes(cfg, r, i, hash, kind)
    ensures x < |r.worlds[i].db.tokens| && Usable(r.worlds[i].db.tokens[x], hash, kind, r.worlds[i].now)
    ensures Some(r.worlds[i].db.tokens[x].user) == ConsumedFor(cfg, r.worlds[i], r.ops[i])
    ensures r.worlds[i + 1].db.tokens == ConsumeTokens(r.worlds[i].db.tokens, hash, kind, r.worlds[i].now)
  {
    assert StepAt(cfg, r, i);
    StepConsumes(cfg, r.worlds[i], r.ops[i]);
    x :| x < |r.worlds[i].db.tokens| && Usable(r.worlds[i].db.tokens[x], hash, kind, r.worlds[i].now)
      && Some(r.worlds[i].db.tokens[x].user) == ConsumedFor(cfg, r.worlds[i], r.ops[i]);
  }

  lemma NoOwner(ts: seq<TokenRow>, hash: seq<Byte>, kind: TokenKind, now: Time)
    requires forall i | 0 <= i < |ts| :: !Usable(ts[i], hash, kind, now)
    ensures TokenOwner(ts, hash, kind, now) == None
  {
    var owner := TokenOwner(ts, hash, kind, now);
    assert owner.Some? ==> exists tok :: tok in ts && Usable(tok, hash, kind, now);
  }

  // ----- whole runs -----

  ghost predicate DistinctHashes(ts: seq<TokenRow>) {
    forall i, j | 0 <= i < j < |ts| :: ts[i].hash != ts[j].hash
  }

  lemma {:induction false} RunDistinctHashes(cfg: Config, r: Run, n: nat)
    requires IsRun(cfg, r) && n <= |r.ops|
    ensures DistinctHashes(r.worlds[n].db.tokens)
  {
    if n > 0 {
      RunDistinctHashes(cfg, r, n - 1);
      TokensAt(cfg, r, n - 1);
      var ts, ts' := r.worlds[n - 1].db.tokens, r.worlds[n].db.tokens;
      forall i, j | 0 <= i < j < |ts'| ensures ts'[i].hash != ts'[j].hash {
        assert RowEvolves(ts[i], ts'[i]);
        if j < |ts| { assert RowEvolves(ts[j], ts'[j]); } else { assert ts[i] in ts; }
      }
    }
  }

  // The operation that appended row x.
  function Origin(r: Run, n: nat, x: nat): nat
    requires n < |r.worlds| && r.worlds[0].db.tokens == [] && x < |r.worlds[n].db.tokens|
  {
    if x < |r.worlds[n - 1].db.tokens| then Origin(r, n - 1, x) else n - 1
  }

  // Operation i neither superseded this token nor consumed it.
  ghost predicate Untouched(cfg: Config, r: Run, i: nat, user: Uuid, hash: seq<Byte>, kind: TokenKind) {
    && i < |r.ops| && i < |r.worlds| && i < |r.replies|
    && !Supersedes(cfg, r.worlds[i], r.ops[i], r.replies[i], user, kind)
    && !Consumes(cfg, r, i, hash, kind)
  }

  // A row that is still live after a step was not touched by it.
  lemma LiveIsUntouched(cfg: Config, r: Run, i: nat, x: nat)
    requires IsRun(cfg, r) && i < |r.ops|
    requires x < |r.worlds[i].db.tokens| && x < |r.worlds[i + 1].db.tokens|
    requires r.worlds[i + 1].db.tokens[x].consumedAt.None?
    ensures var row := r.worlds[i].db.tokens[x]; Untouched(cfg, r, i, row.user, row.hash, row.kind)
  {
    var row, row' := r.worlds[i].db.tokens[x], r.worlds[i + 1].db.tokens[x];
    TokensAt(cfg, r, i);
    assert RowEvolves(row, row');
    if Supersedes(cfg, r.worlds[i], r.ops[i], r.replies[i], row.user, row.kind) {
      SupersedesAt(cfg, r, i, row.user, row.kind);
    }
    if Consumes(cfg, r, i, row.hash, row.kind) {
      var y := ConsumesAt(cfg, r, i, row.hash, row.kind);
      RunDistinctHashes(cfg, r, i);
    }
  }

  // The story of a row after n operations: its origin issued it, and while it is live
  // nothing since then has superseded or consumed it.
  ghost predicate Story(cfg: Config, r: Run, n: nat, row: TokenRow, i: nat) {
    && i < n <= |r.ops| && n < |r.worlds| && i < |r.replies|
    && Issues(cfg, r.worlds[i], r.ops[i], r.replies[i], row)
    && (row.consumedAt.None? ==> forall j | i < j < n :: Untouched(cfg, r, j, row.user, row.hash, row.kind))
  }

  lemma {:induction false} RowHistory(cfg: Config, r: Run, n: nat, x: nat)
    requires IsRun(cfg, r) && n <= |r.ops| && x < |r.worlds[n].db.tokens|
    ensures Story(cfg, r, n, r.worlds[n].db.tokens[x], Origin(r, n, x))
  {
    var v, v' := r.worlds[n - 1], r.worlds[n];
    TokensAt(cfg, r, n - 1);
    if x < |v.db.tokens| {
      RowHistory(cfg, r, n - 1, x);
      assert RowEvolves(v.db.tokens[x], v'.db.tokens[x]);
      if v'.db.tokens[x].consumedAt.None? {
        LiveIsUntouched(cfg, r, n - 1, x);
      }
    }
  }

  // Operation i issued a token of this hash to the user, and said so.
  ghost predicate IssuedAt(cfg: Config, r: Run, i: nat, user: Uuid, hash: seq<Byte>, kind: TokenKind) {
    && i < |r.ops| == |r.replies| && i < |r.worlds|
    && RawOf(r.ops[i]).Some? && HashOf(cfg, RawOf(r.ops[i]).value) == hash
    && Recipient(cfg, r.worlds[i], r.ops[i]) == Some((user, kind))
    && (r.replies[i].Issued? || r.replies[i].Registered?)
  }

  // Operation i is where the token of this hash comes from that operation k may consume for `user`.
  ghost predicate Traces(cfg: Config, r: Run, i: nat, k: nat, user: Uuid, hash: seq<Byte>, kind: TokenKind) {
    && i < k < |r.ops| && k < |r.worlds| && IssuedAt(cfg, r, i, user, hash, kind)
    && r.worlds[i].now <= r.worlds[k].now < r.worlds[i].now + Expiry(cfg, kind)
    && forall j | i < j < k :: Untouched(cfg, r, j, user, hash, kind)
  }

  // Every consumption, in every run: the token was issued to its owner, has not expired, and since
  // then no consumption of it, no newer request and no password change came in between.
  lemma ConsumptionTraces(cfg: Config, r: Run, k: nat, hash: seq<Byte>, kind: TokenKind)
    requires IsRun(cfg, r) && Consumes(cfg, r, k, hash, kind)
    ensures exists i :: Traces(cfg, r, i, k, ConsumedFor(cfg, r.worlds[k], r.ops[k]).value, hash, kind)
  {
    var x := ConsumesAt(cfg, r, k, hash, kind);
    RowHistory(cfg, r, k, x);
    var i := Origin(r, k, x);
    ClockRises(cfg, r, i, k);
    assert Traces(cfg, r, i, k, ConsumedFor(cfg, r.worlds[k], r.ops[k]).value, hash, kind);
  }

  lemma CompletedConsumes(cfg: Config, r: Run, k: nat)
    requires IsRun(cfg, r) && k < |r.ops| && r.replies[k] == Completed && (r.ops[k].Reset? || r.ops[k].Confirm?)
    ensures Presented(cfg, r.ops[k]).Some? && ConsumedFor(cfg, r.worlds[k], r.ops[k]).Some?
  {
    assert StepAt(cfg, r, k);
  }

  // A successful reset traces back to one InitiatePasswordReset for the same user.
  lemma ResetProvenance(cfg: Config, r: Run, k: nat)
    requires IsRun(cfg, r) && k < |r.ops| && r.ops[k].Reset? && r.replies[k] == Completed
    ensures exists i: nat, user: Uuid ::
      && Traces(cfg, r, i, k, user, cfg.sha(r.ops[k].token), PasswordReset)
      && r.ops[i].RequestReset?
      && ConsumedFor(cfg, r.worlds[k], r.ops[k]) == Some(user)
  {
    CompletedConsumes(cfg, r, k);
    var hash := cfg.sha(r.ops[k].token);
    ConsumptionTraces(cfg, r, k, hash, PasswordReset);
    var user := ConsumedFor(cfg, r.worlds[k], r.ops[k]).value;
    var i: nat :| Traces(cfg, r, i, k, user, hash, PasswordReset);
    assert r.ops[i].RequestReset?;
  }

  // ----- what a request answers -----

  // The row a request leaves at the end of the table, for a token of these random bytes.
  function RequestedRow(cfg: Config, w: World, user: Uuid, kind: TokenKind, raw: seq<Byte>): TokenRow {
    TokenRow(user, cfg.sha(Encode(UrlSafe, raw)), kind,
             w.now + (match kind case PasswordReset => cfg.resetExpiry case EmailVerification => cfg.verifyExpiry),
             None)
  }

  ghost predicate RequestRight(cfg: Config, w: World, user: Uuid, kind: TokenKind, raw: seq<Byte>, faults: Faults,
                               reply: Reply, after: Tables) {
    var n := |w.db.tokens|;
    if faults !! {GenerateBytes, InsertToken} && HasUser(w.db.users, user) then
      && reply == Issued(Encode(UrlSafe, raw)) && |after.tokens| == n + 1
      && after.tokens[n] == RequestedRow(cfg, w, user, kind, raw)
    else reply == Failed(Internal) && |after.tokens| == n
  }

  lemma RequestAnswers(cfg: Config, w: World, op: Op)
    requires op.RequestReset? || op.RequestVerification?
    ensures var (t', reply) := Apply(cfg, w, op);
      if op.RequestVerification? then RequestRight(cfg, w, op.user, EmailVerification, op.raw, op.faults, reply, t')
      else
        var found := FindUser(w.db.users, ByEmail(op.email, cfg.issuer));
        if found.None? || LookupUser in op.faults then t' == w.db && reply == Issued("")
        else RequestRight(cfg, w, found.value.id, PasswordReset, op.raw, op.faults, reply, t')
  {
    if op.RequestReset? {
      var found := FindUser(w.db.users, ByEmail(op.email, cfg.issuer));
      if found.Some? { IssueEvolves(cfg, w.db, w.now, found.value.id, PasswordReset, op.raw, false, op.faults); }
    } else {
      IssueEvolves(cfg, w.db, w.now, op.user, EmailVerification, op.raw, false, op.faults);
    }
  }

  // In every run: a reset request for an unknown email, or whose lookup fails, answers an empty success and
  // changes nothing. Any other request answers a token, which it leaves in the table, exactly if the
  // user exists and neither the random bytes nor the insertion fail.
  lemma RequestExactly(cfg: Config, r: Run, n: nat)
    requires IsRun(cfg, r) && n < |r.ops| && (r.ops[n].RequestReset? || r.ops[n].RequestVerification?)
    ensures var w, op, reply, t' := r.worlds[n], r.ops[n], r.replies[n], r.worlds[n + 1].db;
      if op.RequestVerification? then RequestRight(cfg, w, op.user, EmailVerification, op.raw, op.faults, reply, t')
      else
        var found := FindUser(w.db.users, ByEmail(op.email, cfg.issuer));
        if found.None? || LookupUser in op.faults then t' == w.db && reply == Issued("")
        else RequestRight(cfg, w, found.value.id, PasswordReset, op.raw, op.faults, reply, t')
  {
    assert StepAt(cfg, r, n);
    RequestAnswers(cfg, r.worlds[n], r.ops[n]);
  }

  // ----- the converse: an untouched token works -----

  // A row that the operation neither supersedes nor consumes stays as it is.
  ghost predicate Spared(cfg: Config, w: World, op: Op, reply: Reply, row: TokenRow) {
    && !Supersedes(cfg, w, op, reply, row.user, row.kind)
    && !(Presented(cfg, op) == Some((row.hash, row.kind)) && ConsumedFor(cfg, w, op).Some?)
  }

  lemma IssueSpares(cfg: Config, t: Tables, now: Time, user: Uuid, kind: TokenKind, raw: seq<Byte>, inTx: bool,
                    faults: Faults, x: nat)
    requires x < |t.tokens|
    requires InvalidateOld in faults || !Live(t.tokens[x], user, kind)
    ensures var ts' := IssueToken(cfg, t, now, user, kind, raw, inTx, faults).0.tokens;
      x < |ts'| && ts'[x] == t.tokens[x]
  {}

  lemma RequestSpares(cfg: Config, w: World, op: Op, x: nat)
    requires (op.RequestReset? || op.RequestVerification?) && x < |w.db.tokens|
    requires Spared(cfg, w, op, Apply(cfg, w, op).1, w.db.tokens[x])
    ensures var ts' := Apply(cfg, w, op).0.tokens; x < |ts'| && ts'[x] == w.db.tokens[x]
  {
    if op.RequestReset? {
      var found := FindUser(w.db.users, ByEmail(op.email, cfg.issuer));
      if found.Some? && LookupUser !in op.faults {
        IssueSpares(cfg, w.db, w.now, found.value.id, PasswordReset, op.raw, false, op.faults, x);
      }
    } else {
      IssueSpares(cfg, w.db, w.now, op.user, EmailVerification, op.raw, false, op.faults, x);
    }
  }

  lemma SignUpSpares(cfg: Config, w: World, op: Op, x: nat)
    requires Invariant(cfg, w.db) && op.SignUp? && Apply(cfg, w, op).1.Registered? && x < |w.db.tokens|
    ensures var ts' := Apply(cfg, w, op).0.tokens; x < |ts'| && ts'[x] == w.db.tokens[x]
  {
    var hash := w.hasher.hash(op.salt, op.req.password);
    RegisterUnfolds(cfg, w.db, w.now, op.req, hash, op.ids, op.mail, op.faults);
    var u := NewUser(LocalIdentity(cfg, op.req), op.ids, w.now);
    CreateLocalPrepares(cfg, w.db, w.now, u, op.ids, op.faults);
    if op.mail.Some? {
      NewUserHasNoTokens(cfg, w, op, x);
      var t1 := Create(cfg.tenantName, w.db, w.now, u, op.ids, true, op.faults).0;
      var t2 := t1.(credentials := t1.credentials[u.id := hash]);
      IssueSpares(cfg, t2, w.now, u.id, EmailVerification, op.mail.value.raw, true, op.faults, x);
    }
  }

  lemma ChangeSpares(cfg: Config, w: World, op: Op, x: nat)
    requires op.Change? && x < |w.db.tokens| && Spared(cfg, w, op, Apply(cfg, w, op).1, w.db.tokens[x])
    ensures var ts' := Apply(cfg, w, op).0.tokens; x < |ts'| && ts'[x] == w.db.tokens[x]
  {
    StorePasswordKeepsTokens(cfg, w.hasher, w.db, op.user, op.newPassword, op.salt, op.faults);
  }

  lemma ConsumerSpares(cfg: Config, w: World, op: Op, x: nat)
    requires (op.Reset? || op.Confirm?) && x < |w.db.tokens| && Spared(cfg, w, op, Apply(cfg, w, op).1, w.db.tokens[x])
    ensures var ts' := Apply(cfg, w, op).0.tokens; x < |ts'| && ts'[x] == w.db.tokens[x]
  {
    if op.Reset? { ResetTokens(cfg, w, op); } else { ConfirmTokens(cfg, w, op); }
  }

  lemma StepSpares(cfg: Config, w: World, op: Op, x: nat)
    requires Invariant(cfg, w.db) && x < |w.db.tokens| && Spared(cfg, w, op, Apply(cfg, w, op).1, w.db.tokens[x])
    ensures var ts' := Apply(cfg, w, op).0.tokens; x < |ts'| && ts'[x] == w.db.tokens[x]
  {
    if op.RequestReset? || op.RequestVerification? { RequestSpares(cfg, w, op, x); }
    else if op.SignUp? && Apply(cfg, w, op).1.Registered? { SignUpSpares(cfg, w, op, x); }
    else if op.Change? { ChangeSpares(cfg, w, op, x); }
    else if op.Reset? || op.Confirm? { ConsumerSpares(cfg, w, op, x); }
    else { FixedTokens(cfg, w, op); }
  }

  lemma SparesAt(cfg: Config, r: Run, i: nat, x: nat)
    requires IsRun(cfg, r) && i < |r.ops| && x < |r.worlds[i].db.tokens|
    requires var row := r.worlds[i].db.tokens[x]; Untouched(cfg, r, i, row.user, row.hash, row.kind)
    ensures x < |r.worlds[i + 1].db.tokens| && r.worlds[i + 1].db.tokens[x] == r.worlds[i].db.tokens[x]
  {
    RunKeepsInvariant(cfg, r, i);
    assert StepAt(cfg, r, i);
    StepSpares(cfg, r.worlds[i], r.ops[i], x);
  }

  lemma StepIssues(cfg: Config, w: World, op: Op, user: Uuid, kind: TokenKind)
    requires Invariant(cfg, w.db) && RawOf(op).Some? && Recipient(cfg, w, op) == Some((user, kind))
    requires Apply(cfg, w, op).1.Issued? || Apply(cfg, w, op).1.Registered?
    ensures var ts' := Apply(cfg, w, op).0.tokens;
      && |ts'| == |w.db.tokens| + 1
      && ts'[|w.db.tokens|] == TokenRow(user, HashOf(cfg, RawOf(op).value), kind, w.now + Expiry(cfg, kind), None)
  {
    if op.SignUp? {
      var hash := w.hasher.hash(op.salt, op.req.password);
      RegisterUnfolds(cfg, w.db, w.now, op.req, hash, op.ids, op.mail, op.faults);
      var u := NewUser(LocalIdentity(cfg, op.req), op.ids, w.now);
      CreateLocalPrepares(cfg, w.db, w.now, u, op.ids, op.faults);
      var t1 := Create(cfg.tenantName, w.db, w.now, u, op.ids, true, op.faults).0;
      var t2 := t1.(credentials := t1.credentials[u.id := hash]);
      IssueEvolves(cfg, t2, w.now, u.id, EmailVerification, op.mail.value.raw, true, op.faults);
    } else {
      IssueEvolves(cfg, w.db, w.now, user, kind, RawOf(op).value, false, op.faults);
    }
  }

  lemma IssuesAt(cfg: Config, r: Run, i: nat, user: Uuid, hash: seq<Byte>, kind: TokenKind)
    requires IsRun(cfg, r) && IssuedAt(cfg, r, i, user, hash, kind)
    ensures var x, ts := |r.worlds[i].db.tokens|, r.worlds[i + 1].db.tokens;
      |ts| == x + 1 && ts[x] == TokenRow(user, hash, kind, r.worlds[i].now + Expiry(cfg, kind), None)
  {
    RunKeepsInvariant(cfg, r, i);
    assert StepAt(cfg, r, i);
    StepIssues(cfg, r.worlds[i], r.ops[i], user, kind);
  }

  // The row of an issued token, found again after n operations that did not touch it.
  lemma {:induction false} UntouchedStaysLive(cfg: Config, r: Run, i: nat, n: nat, user: Uuid, hash: seq<Byte>,
                                              kind: TokenKind)
    requires IsRun(cfg, r) && i < n <= |r.ops| && IssuedAt(cfg, r, i, user, hash, kind)
    requires forall j | i < j < n :: Untouched(cfg, r, j, user, hash, kind)
    ensures var x, ts := |r.worlds[i].db.tokens|, r.worlds[n].db.tokens;
      x < |ts| && ts[x] == TokenRow(user, hash, kind, r.worlds[i].now + Expiry(cfg, kind), None)
    decreases n
  {
    if i < n - 1 {
      UntouchedStaysLive(cfg, r, i, n - 1, user, hash, kind);
      SparesAt(cfg, r, n - 1, |r.worlds[i].db.tokens|);
    } else {
      IssuesAt(cfg, r, i, user, hash, kind);
    }
  }

  lemma UsableOwner(ts: seq<TokenRow>, x: nat, hash: seq<Byte>, kind: TokenKind, now: Time)
    requires x < |ts| && DistinctHashes(ts) && Usable(ts[x], hash, kind, now)
    ensures TokenOwner(ts, hash, kind, now) == Some(ts[x].user)
  {
    var owner := TokenOwner(ts, hash, kind, now);
    assert ts[x] in ts;
    var tok :| tok in ts && Usable(tok, hash, kind, now) && tok.user == owner.value;
    var y :| 0 <= y < |ts| && ts[y] == tok;
  }

  lemma TracesConsume(cfg: Config, r: Run, i: nat, k: nat, user: Uuid, hash: seq<Byte>, kind: TokenKind)
    requires IsRun(cfg, r) && Traces(cfg, r, i, k, user, hash, kind)
    ensures TokenOwner(r.worlds[k].db.tokens, hash, kind, r.worlds[k].now) == Some(user)
  {
    UntouchedStaysLive(cfg, r, i, k, user, hash, kind);
    RunDistinctHashes(cfg, r, k);
    UsableOwner(r.worlds[k].db.tokens, |r.worlds[i].db.tokens|, hash, kind, r.worlds[k].now);
  }

  // A presented token is consumed for a user exactly when it traces back to its issue to that user.
  lemma ConsumedExactly(cfg: Config, r: Run, k: nat, user: Uuid)
    requires IsRun(cfg, r) && k < |r.ops| && Presented(cfg, r.ops[k]).Some?
    ensures var (hash, kind) := Presented(cfg, r.ops[k]).value;
      ConsumedFor(cfg, r.worlds[k], r.ops[k]) == Some(user) <==> exists i :: Traces(cfg, r, i, k, user, hash, kind)
  {
    var (hash, kind) := Presented(cfg, r.ops[k]).value;
    if ConsumedFor(cfg, r.worlds[k], r.ops[k]) == Some(user) {
      ConsumptionTraces(cfg, r, k, hash, kind);
    }
    if i: nat :| Traces(cfg, r, i, k, user, hash, kind) {
      TracesConsume(cfg, r, i, k, user, hash, kind);
    }
  }

  // The policy accepts the password for that user: judged beside the email and, if there is one, the username.
  predicate Accepts(cfg: Config, u: User, password: string) {
    match u.username
    case Some(name) => cfg.policy(password, if name == "" then [u.email] else [u.email, name])
    case None => cfg.policy(password, [u.email])
  }

  predicate Acceptable(cfg: Config, w: World, user: Uuid, password: string) {
    match FindUser(w.db.users, ById(user)) case None => false case Some(u) => Accepts(cfg, u, password)
  }

  lemma WordsOfUser(cfg: Config, u: User, password: string)
    ensures Accepts(cfg, u, password) == cfg.policy(password, ContextWords(u))
  {
    if u.username.Some? && u.username.value != "" {
      assert ContextWords(u) == [u.email, u.username.value];
    } else {
      assert ContextWords(u) == [u.email];
    }
  }

  // No call fails that a reset depends on.
  predicate ResetUndisturbed(faults: Faults) { faults !! {ConsumeToken, ReadUser, GenerateSalt, UpdateHash} }

  lemma ResetAnswers(cfg: Config, w: World, op: Op)
    requires op.Reset?
    ensures Apply(cfg, w, op).1 == Completed <==>
            && ResetUndisturbed(op.faults)
            && ConsumedFor(cfg, w, op).Some? && Acceptable(cfg, w, ConsumedFor(cfg, w, op).value, op.newPassword)
    ensures ConsumedFor(cfg, w, op).Some? && ReadUser !in op.faults ==>
              var user := ConsumedFor(cfg, w, op).value;
              FindUser(w.db.users, ById(user)).Some? && !Acceptable(cfg, w, user, op.newPassword) ==>
                Apply(cfg, w, op).1 == Failed(PolicyViolation)
  {
    if ConsumedFor(cfg, w, op).Some? {
      var u := FindUser(w.db.users, ById(ConsumedFor(cfg, w, op).value));
      if u.Some? { WordsOfUser(cfg, u.value, op.newPassword); }
    }
  }

  // A reset completes exactly when no call it depends on fails, its token traces back to a request for a
  // user, and the policy accepts the new password for that user.
  lemma ResetExactly(cfg: Config, r: Run, k: nat)
    requires IsRun(cfg, r) && k < |r.ops| && r.ops[k].Reset?
    ensures r.replies[k] == Completed <==>
            && ResetUndisturbed(r.ops[k].faults)
            && exists i: nat, user ::
              && Traces(cfg, r, i, k, user, cfg.sha(r.ops[k].token), PasswordReset)
              && Acceptable(cfg, r.worlds[k], user, r.ops[k].newPassword)
  {
    assert StepAt(cfg, r, k);
    ResetAnswers(cfg, r.worlds[k], r.ops[k]);
    var owner := ConsumedFor(cfg, r.worlds[k], r.ops[k]);
    if owner.Some? { ConsumedExactly(cfg, r, k, owner.value); }
    if i: nat, user :|
        && ResetUndisturbed(r.ops[k].faults)
        && Traces(cfg, r, i, k, user, cfg.sha(r.ops[k].token), PasswordReset)
        && Acceptable(cfg, r.worlds[k], user, r.ops[k].newPassword) {
      ConsumedExactly(cfg, r, k, user);
    }
  }

  lemma ConfirmAnswers(cfg: Config, w: World, op: Op)
    requires op.Confirm?
    ensures Apply(cfg, w, op).1 == Completed <==> WriteVerified !in op.faults && ConsumedFor(cfg, w, op).Some?
  {}

  // And a confirmation completes exactly when neither of its calls fails and its token traces back to its issue.
  lemma ConfirmExactly(cfg: Config, r: Run, k: nat)
    requires IsRun(cfg, r) && k < |r.ops| && r.ops[k].Confirm?
    ensures r.replies[k] == Completed <==>
            && r.ops[k].faults !! {ConsumeToken, WriteVerified}
            && exists i: nat, user :: Traces(cfg, r, i, k, user, cfg.sha(r.ops[k].token), EmailVerification)
  {
    assert StepAt(cfg, r, k);
    ConfirmAnswers(cfg, r.worlds[k], r.ops[k]);
    var owner := ConsumedFor(cfg, r.worlds[k], r.ops[k]);
    if owner.Some? { ConsumedExactly(cfg, r, k, owner.value); }
    if i: nat, user :|
        && r.ops[k].faults !! {ConsumeToken, WriteVerified}
        && Traces(cfg, r, i, k, user, cfg.sha(r.ops[k].token), EmailVerification) {
      ConsumedExactly(cfg, r, k, user);
    }
  }

  // ----- single use -----

  // A token of this hash exists and every row of it is consumed.
  ghost predicate Spent(ts: seq<TokenRow>, hash: seq<Byte>) {
    && (exists i | 0 <= i < |ts| :: ts[i].hash == hash)
    && forall i | 0 <= i < |ts| && ts[i].hash == hash :: ts[i].consumedAt.Some?
  }

  lemma SpentStays(cfg: Config, r: Run, i: nat, hash: seq<Byte>)
    requires IsRun(cfg, r) && i < |r.ops| && Spent(r.worlds[i].db.tokens, hash)
    ensures Spent(r.worlds[i + 1].db.tokens, hash)
  {
    TokensAt(cfg, r, i);
    var ts, ts' := r.worlds[i].db.tokens, r.worlds[i + 1].db.tokens;
    var x :| 0 <= x < |ts| && ts[x].hash == hash;
    assert ts[x] in ts && RowEvolves(ts[x], ts'[x]);
    forall j | 0 <= j < |ts'| && ts'[j].hash == hash ensures ts'[j].consumedAt.Some? {
      if j < |ts| { assert RowEvolves(ts[j], ts'[j]); }
    }
  }

  lemma {:induction false} SpentAfterConsumption(cfg: Config, r: Run, k: nat, n: nat, hash: seq<Byte>, kind: TokenKind)
    requires IsRun(cfg, r) && k < n <= |r.ops| && Consumes(cfg, r, k, hash, kind)
    ensures Spent(r.worlds[n].db.tokens, hash)
    decreases n
  {
    if k < n - 1 {
      SpentAfterConsumption(cfg, r, k, n - 1, hash, kind);
      SpentStays(cfg, r, n - 1, hash);
    } else {
      var x := ConsumesAt(cfg, r, k, hash, kind);
      RunDistinctHashes(cfg, r, k);
      assert r.worlds[n].db.tokens[x].hash == hash;
    }
  }

  lemma NoOwnerReply(cfg: Config, r: Run, n: nat)
    requires IsRun(cfg, r) && n < |r.ops| && Presented(cfg, r.ops[n]).Some?
    requires ConsumedFor(cfg, r.worlds[n], r.ops[n]).None?
    ensures r.replies[n] == Failed(TokenInvalid) && r.worlds[n + 1] == r.worlds[n]
  {
    assert StepAt(cfg, r, n);
  }

  // Consumed once, a token is refused for ever, as either kind, whatever became of the consuming call.
  lemma SingleUse(cfg: Config, r: Run, k: nat, n: nat, hash: seq<Byte>, kind: TokenKind)
    requires IsRun(cfg, r) && k < n < |r.ops| && Consumes(cfg, r, k, hash, kind)
    requires Presented(cfg, r.ops[n]).Some? && Presented(cfg, r.ops[n]).value.0 == hash
    ensures r.replies[n] == Failed(TokenInvalid) && r.worlds[n + 1] == r.worlds[n]
  {
    SpentAfterConsumption(cfg, r, k, n, hash, kind);
    NoOwner(r.worlds[n].db.tokens, hash, Presented(cfg, r.ops[n]).value.1, r.worlds[n].now);
    NoOwnerReply(cfg, r, n);
  }

  // A token issued as one kind is never accepted as the other.
  lemma KindsNeverMix(cfg: Config, r: Run, n: nat, x: nat, kind: TokenKind, now: Time)
    requires IsRun(cfg, r) && n <= |r.ops| && x < |r.worlds[n].db.tokens|
    requires kind != r.worlds[n].db.tokens[x].kind
    ensures TokenOwner(r.worlds[n].db.tokens, r.worlds[n].db.tokens[x].hash, kind, now) == None
  {
    RunDistinctHashes(cfg, r, n);
    NoOwner(r.worlds[n].db.tokens, r.worlds[n].db.tokens[x].hash, kind, now);
  }

  // consumed_at is write-once, from any point of a run to any later one.
  lemma {:induction false} ConsumedIsWriteOnce(cfg: Config, r: Run, i: nat, j: nat)
    requires IsRun(cfg, r) && i <= j <= |r.ops|
    ensures TokensEvolve(r.worlds[i].db.tokens, r.worlds[j].db.tokens)
    decreases j
  {
    if i < j {
      ConsumedIsWriteOnce(cfg, r, i, j - 1);
      TokensAt(cfg, r, j - 1);
      var a, b, c := r.worlds[i].db.tokens, r.worlds[j - 1].db.tokens, r.worlds[j].db.tokens;
      forall x | 0 <= x < |a| ensures RowEvolves(a[x], c[x]) {
        assert RowEvolves(a[x], b[x]) && RowEvolves(b[x], c[x]);
      }
    }
  }

  // ----- at most one live token -----

  ghost predicate OneLive(ts: seq<TokenRow>) {
    forall i, j, user, kind | 0 <= i < j < |ts| :: !(Live(ts[i], user, kind) && Live(ts[j], user, kind))
  }

  lemma NewUserHasNoTokens(cfg: Config, w: World, op: Op, x: nat)
    requires Invariant(cfg, w.db) && op.SignUp? && Apply(cfg, w, op).1.Registered? && x < |w.db.tokens|
    ensures w.db.tokens[x].user != op.ids.user
  {
    var hash := w.hasher.hash(op.salt, op.req.password);
    RegisterUnfolds(cfg, w.db, w.now, op.req, hash, op.ids, op.mail, op.faults);
    var u := NewUser(LocalIdentity(cfg, op.req), op.ids, w.now);
    CreateChecksClash(cfg.tenantName, w.db, w.now, u, op.ids, op.faults);
    assert TokenOwnerFits(cfg, w.db.users, w.db.tokens[x]);
    NewIdIsNew(w.db.users, u, w.db.tokens[x].user);
  }

  lemma NewUserHasNoTokensAt(cfg: Config, r: Run, i: nat, x: nat)
    requires IsRun(cfg, r) && i < |r.ops| && r.ops[i].SignUp? && r.replies[i].Registered?
    requires x < |r.worlds[i].db.tokens|
    ensures r.worlds[i].db.tokens[x].user != r.ops[i].ids.user
  {
    RunKeepsInvariant(cfg, r, i);
    assert StepAt(cfg, r, i);
    NewUserHasNoTokens(cfg, r.worlds[i], r.ops[i], x);
  }

  // A new live row has no live row of its user and kind beside it.
  lemma NewRowIsAlone(cfg: Config, r: Run, i: nat, x: nat)
    requires IsRun(cfg, r) && i < |r.ops| && InvalidateOld !in FaultsOf(r.ops[i])
    requires |r.worlds[i + 1].db.tokens| > |r.worlds[i].db.tokens| && x < |r.worlds[i].db.tokens|
    ensures var ts' := r.worlds[i + 1].db.tokens;
      var row := ts'[|r.worlds[i].db.tokens|];
      !Live(ts'[x], row.user, row.kind)
  {
    TokensAt(cfg, r, i);
    var ts, ts' := r.worlds[i].db.tokens, r.worlds[i + 1].db.tokens;
    var row := ts'[|ts|];
    assert RowEvolves(ts[x], ts'[x]);
    if r.ops[i].SignUp? {
      NewUserHasNoTokensAt(cfg, r, i, x);
    } else {
      SupersedesAt(cfg, r, i, row.user, row.kind);
    }
  }

  // In serial runs whose invalidations succeed, a user has at most one live token of each kind.
  lemma {:induction false} SerialRunsHaveOneLiveToken(cfg: Config, r: Run, n: nat)
    requires IsRun(cfg, r) && n <= |r.ops|
    requires forall i | 0 <= i < n :: InvalidateOld !in FaultsOf(r.ops[i])
    ensures OneLive(r.worlds[n].db.tokens)
  {
    if n > 0 {
      SerialRunsHaveOneLiveToken(cfg, r, n - 1);
      TokensAt(cfg, r, n - 1);
      var ts, ts' := r.worlds[n - 1].db.tokens, r.worlds[n].db.tokens;
      forall i, j, user, kind | 0 <= i < j < |ts'| ensures !(Live(ts'[i], user, kind) && Live(ts'[j], user, kind)) {
        assert RowEvolves(ts[i], ts'[i]);
        if j < |ts| {
          assert RowEvolves(ts[j], ts'[j]);
          assert !(Live(ts[i], user, kind) && Live(ts[j], user, kind));
        } else {
          NewRowIsAlone(cfg, r, n - 1, i);
        }
      }
    }
  }
}
