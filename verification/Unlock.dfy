// When a locked account opens again: exactly when its MaxAttempts-th newest failure leaves the window.
module Unlock {
  import opened Wrappers
  import opened Base64
  import opened Hasher
  import opened Schema
  import opened StoreSpec
  import opened Runs
  import opened Accounts
  import opened PasswordMap

  // The times of a user's failed attempts, oldest first.
  function Failures(attempts: seq<Attempt>, user: Uuid): seq<Time> {
    if attempts == [] then []
    else
      var last := attempts[|attempts| - 1];
      Failures(attempts[..|attempts| - 1], user) + if last.user == user && !last.success then [last.at] else []
  }

  predicate Sorted(ts: seq<Time>) { forall i, j | 0 <= i < j < |ts| :: ts[i] <= ts[j] }

  // How many times at the end of a list are after `since`.
  function After(ts: seq<Time>, since: Time): nat {
    if ts == [] then 0 else After(ts[..|ts| - 1], since) + if ts[|ts| - 1] > since then 1 else 0
  }

  lemma {:induction false} CountIsAfter(attempts: seq<Attempt>, user: Uuid, since: Time)
    ensures CountRecentFailures(attempts, user, since) == After(Failures(attempts, user), since)
  {
    if attempts != [] {
      var n := |attempts| - 1;
      CountIsAfter(attempts[..n], user, since);
      var fs := Failures(attempts[..n], user);
      assert (fs + [attempts[n].at])[..|fs|] == fs;
      assert fs + [] == fs;
    }
  }

  lemma {:induction false} NoneAfter(ts: seq<Time>, since: Time)
    requires forall i | 0 <= i < |ts| :: ts[i] <= since
    ensures After(ts, since) == 0
  {
    if ts != [] { NoneAfter(ts[..|ts| - 1], since); }
  }

  lemma {:induction false} AfterAtLeast(ts: seq<Time>, since: Time, m: nat)
    requires Sorted(ts) && m >= 1
    ensures After(ts, since) >= m <==> |ts| >= m && ts[|ts| - m] > since
  {
    if ts != [] {
      var n := |ts| - 1;
      if ts[n] <= since {
        NoneAfter(ts, since);
      } else if m > 1 {
        AfterAtLeast(ts[..n], since, m - 1);
      }
    }
  }

  // The time from which the account is open, if it has MaxAttempts failures at all.
  function OpensAt(cfg: Config, t: Tables, user: Uuid): Option<Time> {
    var fs := Failures(t.attempts, user);
    if cfg.maxAttempts < 1 || |fs| < cfg.maxAttempts then None else Some(fs[|fs| - cfg.maxAttempts] + cfg.window)
  }

  lemma LockedExactly(cfg: Config, t: Tables, user: Uuid, now: Time)
    requires cfg.maxAttempts >= 1 && Sorted(Failures(t.attempts, user))
    ensures Locked(cfg, t, user, now) <==> OpensAt(cfg, t, user).Some? && now < OpensAt(cfg, t, user).value
  {
    CountIsAfter(t.attempts, user, now - cfg.window);
    AfterAtLeast(Failures(t.attempts, user), now - cfg.window, cfg.maxAttempts);
  }

  // ----- one step -----

  // An operation appends at most one attempt row, dated now; a failure only for an account that is not locked.
  ghost predicate AttemptsStep(cfg: Config, w: World, as': seq<Attempt>) {
    var as0 := w.db.attempts;
    || as' == as0
    || (exists user, success :: as' == as0 + [Attempt(user, w.now, success)]
          && HasUser(w.db.users, user) && (!success ==> !Locked(cfg, w.db, user, w.now)))
  }

  lemma LogInAttempts(cfg: Config, hasher: PasswordHasher, t: Tables, now: Time, u: User, password: string,
                      salt: seq<Byte>, needsRehash: bool, faults: Faults)
    ensures var t' := LogIn(cfg, hasher, t, now, u, password, salt, needsRehash, faults).0;
      t'.attempts == t.attempts || t'.attempts == t.attempts + [Attempt(u.id, now, true)]
  {}

  // A call for user u leaves the attempts, or passes the lockout check and adds one row.
  lemma AuthenticateAttempts(cfg: Config, hasher: PasswordHasher, t: Tables, now: Time, u: User, email: string,
                             password: string, salt: seq<Byte>, faults: Faults)
    requires FindUser(t.users, ByEmail(email, cfg.issuer)) == Some(u)
    ensures var as' := Authenticate(cfg, hasher, t, now, email, password, salt, faults).0.attempts;
      || as' == t.attempts
      || (!Locked(cfg, t, u.id, now)
          && (as' == t.attempts + [Attempt(u.id, now, false)] || as' == t.attempts + [Attempt(u.id, now, true)]))
  {
    if u.id in t.credentials {
      var verdict := hasher.verify(password, t.credentials[u.id]);
      if verdict.Verdict? && verdict.matched {
        LogInAttempts(cfg, hasher, t, now, u, password, salt, verdict.needsRehash, faults);
      }
    }
  }

  lemma LoginAttempts(cfg: Config, w: World, op: Op)
    requires op.Login?
    ensures AttemptsStep(cfg, w, Apply(cfg, w, op).0.attempts)
  {
    var found := FindUser(w.db.users, ByEmail(op.email, cfg.issuer));
    if found.Some? {
      AuthenticateAttempts(cfg, w.hasher, w.db, w.now, found.value, op.email, op.password, op.salt, op.faults);
    }
  }

  lemma StoreAttempts(cfg: Config, hasher: PasswordHasher, t: Tables, user: Uuid, newPassword: string,
                      salt: seq<Byte>, faults: Faults)
    ensures var r := StorePassword(cfg, hasher, t, user, newPassword, salt, faults);
      r.Ok? ==> r.value.attempts == t.attempts
  {}

  lemma PasswordOpsAttempts(cfg: Config, w: World, op: Op)
    requires op.Change? || op.Reset?
    ensures Apply(cfg, w, op).0.attempts == w.db.attempts
  {
    if op.Change? {
      StoreAttempts(cfg, w.hasher, w.db, op.user, op.newPassword, op.salt, op.faults);
    } else {
      var t1 := w.db.(tokens := ConsumeTokens(w.db.tokens, cfg.sha(op.token), PasswordReset, w.now));
      var owner := TokenOwner(w.db.tokens, cfg.sha(op.token), PasswordReset, w.now);
      if owner.Some? { StoreAttempts(cfg, w.hasher, t1, owner.value, op.newPassword, op.salt, op.faults); }
    }
  }

  lemma SignUpAttempts(cfg: Config, w: World, op: Op)
    requires op.SignUp? && Invariant(cfg, w.db)
    ensures Apply(cfg, w, op).0.attempts == w.db.attempts
  {
    if Apply(cfg, w, op).1.Registered? {
      RegisterCreates(cfg, w.db, w.now, op.req, w.hasher.hash(op.salt, op.req.password), op.ids, op.mail, op.faults);
    }
  }

  lemma OtherAttempts(cfg: Config, w: World, op: Op)
    requires !op.Login? && !op.Change? && !op.Reset? && !op.SignUp?
    ensures Apply(cfg, w, op).0.attempts == w.db.attempts
  {}

  lemma AttemptsAt(cfg: Config, r: Run, i: nat)
    requires IsRun(cfg, r) && i < |r.ops|
    ensures AttemptsStep(cfg, r.worlds[i], r.worlds[i + 1].db.attempts)
  {
    RunKeepsInvariant(cfg, r, i);
    assert StepAt(cfg, r, i);
    var op := r.ops[i];
    if op.Login? { LoginAttempts(cfg, r.worlds[i], op); }
    else if op.Change? || op.Reset? { PasswordOpsAttempts(cfg, r.worlds[i], op); }
    else if op.SignUp? { SignUpAttempts(cfg, r.worlds[i], op); }
    else { OtherAttempts(cfg, r.worlds[i], op); }
  }

  lemma AppendFailure(attempts: seq<Attempt>, a: Attempt, user: Uuid)
    ensures Failures(attempts + [a], user) ==
      Failures(attempts, user) + if a.user == user && !a.success then [a.at] else []
  {
    assert (attempts + [a])[..|attempts|] == attempts;
  }

  // A user's failures change only by one more, dated now, while the account is not locked.
  lemma FailuresAt(cfg: Config, r: Run, i: nat, user: Uuid)
    requires IsRun(cfg, r) && i < |r.ops|
    ensures var fs, fs' := Failures(r.worlds[i].db.attempts, user), Failures(r.worlds[i + 1].db.attempts, user);
      fs' == fs || (fs' == fs + [r.worlds[i].now] && !Locked(cfg, r.worlds[i].db, user, r.worlds[i].now))
  {
    AttemptsAt(cfg, r, i);
    var as0, as' := r.worlds[i].db.attempts, r.worlds[i + 1].db.attempts;
    if as' != as0 {
      var u, success :| as' == as0 + [Attempt(u, r.worlds[i].now, success)]
        && (!success ==> !Locked(cfg, r.worlds[i].db, u, r.worlds[i].now));
      AppendFailure(as0, Attempt(u, r.worlds[i].now, success), user);
    }
  }

  // ----- whole runs -----

  ghost predicate Past(fs: seq<Time>, now: Time) {
    Sorted(fs) && forall i | 0 <= i < |fs| :: fs[i] <= now
  }

  lemma PastStep(fs: seq<Time>, now: Time, later: Time)
    requires Past(fs, now) && now <= later
    ensures Past(fs, later) && Past(fs + [now], later)
  {}

  lemma {:induction false} FailuresSorted(cfg: Config, r: Run, n: nat, user: Uuid)
    requires IsRun(cfg, r) && n <= |r.ops|
    ensures Past(Failures(r.worlds[n].db.attempts, user), r.worlds[n].now)
  {
    if n > 0 {
      FailuresSorted(cfg, r, n - 1, user);
      FailuresAt(cfg, r, n - 1, user);
      ClockStep(cfg, r, n - 1);
      PastStep(Failures(r.worlds[n - 1].db.attempts, user), r.worlds[n - 1].now, r.worlds[n].now);
    }
  }

  // In every run an account is locked exactly until its opening time.
  lemma LockedUntil(cfg: Config, r: Run, n: nat, user: Uuid)
    requires IsRun(cfg, r) && n <= |r.ops| && cfg.maxAttempts >= 1
    ensures var opens := OpensAt(cfg, r.worlds[n].db, user);
      Locked(cfg, r.worlds[n].db, user, r.worlds[n].now) <==> opens.Some? && r.worlds[n].now < opens.value
  {
    FailuresSorted(cfg, r, n, user);
    LockedExactly(cfg, r.worlds[n].db, user, r.worlds[n].now);
  }

  // From a locked world on, whatever is called before the opening time, that time stays the same.
  lemma {:induction false} OpeningTimeStays(cfg: Config, r: Run, i: nat, j: nat, user: Uuid, opens: Time)
    requires IsRun(cfg, r) && i <= j <= |r.ops| && cfg.maxAttempts >= 1
    requires OpensAt(cfg, r.worlds[i].db, user) == Some(opens)
    requires i < j ==> r.worlds[j - 1].now < opens
    ensures Failures(r.worlds[j].db.attempts, user) == Failures(r.worlds[i].db.attempts, user)
    ensures OpensAt(cfg, r.worlds[j].db, user) == Some(opens)
    decreases j
  {
    if i < j {
      if i < j - 1 { ClockStep(cfg, r, j - 2); }
      OpeningTimeStays(cfg, r, i, j - 1, user, opens);
      LockedUntil(cfg, r, j - 1, user);
      FailuresAt(cfg, r, j - 1, user);
    }
  }

  // So no number of calls delays it: once the time has come the correct password logs in.
  lemma UnlocksOnTime(cfg: Config, r: Run, i: nat, j: nat, u: User, opens: Time)
    requires IsRun(cfg, r) && HonoursKeyLength(cfg.argon) && CollisionFree(cfg, r)
    requires i < j < |r.ops| && cfg.maxAttempts >= 1 && OpensAt(cfg, r.worlds[i].db, u.id) == Some(opens)
    requires r.worlds[j - 1].now < opens <= r.worlds[j].now
    requires r.ops[j].Login? && r.ops[j].faults == {}
    requires FindUser(r.worlds[j].db.users, ByEmail(r.ops[j].email, cfg.issuer)) == Some(u)
    requires u.id in Passwords(cfg, r, j) && Passwords(cfg, r, j)[u.id] == r.ops[j].password
    requires cfg.requireVerified ==> u.emailVerified
    ensures r.replies[j] == LoggedIn(RefOf(u))
  {
    OpeningTimeStays(cfg, r, i, j, u.id, opens);
    LockedUntil(cfg, r, j, u.id);
    LoginRefines(cfg, r, j);
  }

  lemma SameFailuresSameLock(cfg: Config, t: Tables, t': Tables, user: Uuid, now: Time)
    requires Failures(t'.attempts, user) == Failures(t.attempts, user)
    ensures Locked(cfg, t', user, now) == Locked(cfg, t, user, now)
  {
    CountIsAfter(t.attempts, user, now - cfg.window);
    CountIsAfter(t'.attempts, user, now - cfg.window);
  }

  // A matching password takes no failure out of the count, whether the login succeeds or the email is not
  // verified yet: the failures stay, and the account is locked at the same times as before.
  lemma MatchKeepsFailures(cfg: Config, w: World, op: Op, user: Uuid, later: Time)
    requires op.Login?
    requires Apply(cfg, w, op).1.LoggedIn? || Apply(cfg, w, op).1 == Failed(EmailNotVerified)
    ensures Failures(Apply(cfg, w, op).0.attempts, user) == Failures(w.db.attempts, user)
    ensures Locked(cfg, Apply(cfg, w, op).0, user, later) == Locked(cfg, w.db, user, later)
  {
    var u := FindUser(w.db.users, ByEmail(op.email, cfg.issuer)).value;
    var verdict := w.hasher.verify(op.password, w.db.credentials[u.id]);
    LogInAttempts(cfg, w.hasher, w.db, w.now, u, op.password, op.salt, verdict.needsRehash, op.faults);
    AppendFailure(w.db.attempts, Attempt(u.id, w.now, true), user);
    SameFailuresSameLock(cfg, w.db, Apply(cfg, w, op).0, user, later);
  }

  // ----- what is recorded, exactly -----

  // The row a login leaves: none if the call does not get to its outcome or cannot commit it.
  function ExpectedAttempt(cfg: Config, w: World, m: map<Uuid, string>, op: Op): Option<Attempt>
    requires op.Login?
  {
    match FindUser(w.db.users, ByEmail(op.email, cfg.issuer))
    case None => None
    case Some(u) =>
      if !(op.faults !! {LookupUser, BeginTx, CountAttempts, ReadCredential, RecordAttempt, CommitTx}) then None
      else if Locked(cfg, w.db, u.id, w.now) || u.id !in m then None
      else if m[u.id] != op.password then Some(Attempt(u.id, w.now, false))
      else if TouchLastLogin in op.faults && (cfg.requireVerified ==> u.emailVerified) then None
      else Some(Attempt(u.id, w.now, true))
  }

  lemma AttemptAnswers(cfg: Config, w: World, op: Op, m: map<Uuid, string>)
    requires w.db.credentials.Keys == m.Keys && Compares(cfg, w, op, m) && op.Login?
    ensures Apply(cfg, w, op).0.attempts ==
            w.db.attempts + match ExpectedAttempt(cfg, w, m, op) case None => [] case Some(row) => [row]
  {
    assert w.db.attempts + [] == w.db.attempts;
    var found := FindUser(w.db.users, ByEmail(op.email, cfg.issuer));
    if found.Some? && found.value.id in m {
      var verdict := w.hasher.verify(op.password, w.db.credentials[found.value.id]);
      LogInRecords(cfg, w.hasher, w.db, w.now, found.value, op.password, op.salt, verdict.needsRehash, op.faults);
    }
  }

  lemma LogInRecords(cfg: Config, hasher: PasswordHasher, t: Tables, now: Time, u: User, password: string,
                     salt: seq<Byte>, needsRehash: bool, faults: Faults)
    ensures LogIn(cfg, hasher, t, now, u, password, salt, needsRehash, faults).0.attempts ==
            if RecordAttempt in faults || CommitTx in faults
               || (TouchLastLogin in faults && (cfg.requireVerified ==> u.emailVerified)) then t.attempts
            else t.attempts + [Attempt(u.id, now, true)]
  {}

  // A login leaves exactly that row; no other operation leaves any.
  lemma AttemptsExactly(cfg: Config, r: Run, n: nat)
    requires IsRun(cfg, r) && HonoursKeyLength(cfg.argon) && CollisionFree(cfg, r) && n < |r.ops|
    ensures var before, after := r.worlds[n].db.attempts, r.worlds[n + 1].db.attempts;
      if r.ops[n].Login? then
        after == before + match ExpectedAttempt(cfg, r.worlds[n], Passwords(cfg, r, n), r.ops[n])
                          case None => [] case Some(row) => [row]
      else after == before
  {
    if r.ops[n].Login? {
      ComparesAt(cfg, r, n);
      assert StepAt(cfg, r, n);
      AttemptAnswers(cfg, r.worlds[n], r.ops[n], Passwords(cfg, r, n));
    } else {
      OthersRecordNothing(cfg, r, n);
    }
  }

  lemma OthersRecordNothing(cfg: Config, r: Run, n: nat)
    requires IsRun(cfg, r) && n < |r.ops| && !r.ops[n].Login?
    ensures r.worlds[n + 1].db.attempts == r.worlds[n].db.attempts
  {
    RunKeepsInvariant(cfg, r, n);
    assert StepAt(cfg, r, n);
    var op := r.ops[n];
    if op.Change? || op.Reset? { PasswordOpsAttempts(cfg, r.worlds[n], op); }
    else if op.SignUp? { SignUpAttempts(cfg, r.worlds[n], op); }
    else { OtherAttempts(cfg, r.worlds[n], op); }
  }

  // Operation i is a login to an account that is not locked, with a password that is not its own and no
  // call failing.
  ghost predicate WrongAt(cfg: Config, r: Run, i: nat, user: Uuid) {
    && i < |r.ops| == |r.replies| && i < |r.worlds| && r.ops[i].Login? && r.ops[i].faults == {}
    && var found := FindUser(r.worlds[i].db.users, ByEmail(r.ops[i].email, cfg.issuer));
       && found.Some? && found.value.id == user && !Locked(cfg, r.worlds[i].db, user, r.worlds[i].now)
       && user in Passwords(cfg, r, i) && Passwords(cfg, r, i)[user] != r.ops[i].password
  }

  // It is answered as such, and adds one failure of that user, dated now, and of nobody else.
  lemma WrongPasswordCounts(cfg: Config, r: Run, i: nat, user: Uuid, other: Uuid)
    requires IsRun(cfg, r) && HonoursKeyLength(cfg.argon) && CollisionFree(cfg, r) && WrongAt(cfg, r, i, user)
    ensures r.replies[i] == Failed(InvalidCredentials)
    ensures Failures(r.worlds[i + 1].db.attempts, other) ==
            Failures(r.worlds[i].db.attempts, other) + if other == user then [r.worlds[i].now] else []
  {
    LoginRefines(cfg, r, i);
    AttemptsExactly(cfg, r, i);
    AppendFailure(r.worlds[i].db.attempts, Attempt(user, r.worlds[i].now, false), other);
  }

  lemma AfterAppend(ts: seq<Time>, at: Time, since: Time)
    ensures After(ts + [at], since) == After(ts, since) + if at > since then 1 else 0
  {
    assert (ts + [at])[..|ts|] == ts;
  }

  predicate Increasing(at: seq<nat>) { forall j, k | 0 <= j < k < |at| :: at[j] < at[k] }

  // Operations before the n-th, in order, each a wrong password later than `since`.
  ghost predicate WrongSince(cfg: Config, r: Run, n: nat, user: Uuid, at: seq<nat>, since: Time) {
    && Increasing(at) && n <= |r.ops| && |r.worlds| == |r.ops| + 1
    && forall k | 0 <= k < |at| :: at[k] < n && r.worlds[at[k]].now > since && WrongAt(cfg, r, at[k], user)
  }

  function FailuresAfter(r: Run, i: nat, user: Uuid, since: Time): nat
    requires i < |r.worlds|
  {
    After(Failures(r.worlds[i].db.attempts, user), since)
  }

  // Operation i takes no failure away, and if it is a wrong password it adds one.
  ghost predicate Rises(cfg: Config, r: Run, i: nat, user: Uuid, since: Time) {
    && i + 1 < |r.worlds| && FailuresAfter(r, i, user, since) <= FailuresAfter(r, i + 1, user, since)
    && (WrongAt(cfg, r, i, user) && r.worlds[i].now > since ==>
          FailuresAfter(r, i, user, since) < FailuresAfter(r, i + 1, user, since))
  }

  lemma FailuresRise(cfg: Config, r: Run, i: nat, user: Uuid, since: Time)
    requires IsRun(cfg, r) && HonoursKeyLength(cfg.argon) && CollisionFree(cfg, r) && i < |r.ops|
    ensures Rises(cfg, r, i, user, since)
  {
    FailuresAt(cfg, r, i, user);
    AfterAppend(Failures(r.worlds[i].db.attempts, user), r.worlds[i].now, since);
    if WrongAt(cfg, r, i, user) { WrongPasswordCounts(cfg, r, i, user, user); }
  }

  lemma {:induction false} NeverFalls(cfg: Config, r: Run, i: nat, j: nat, user: Uuid, since: Time)
    requires i <= j < |r.worlds| && forall k | i <= k < j :: Rises(cfg, r, k, user, since)
    ensures FailuresAfter(r, i, user, since) <= FailuresAfter(r, j, user, since)
    decreases j
  {
    if i < j {
      NeverFalls(cfg, r, i, j - 1, user, since);
      assert Rises(cfg, r, j - 1, user, since);
    }
  }

  // Every wrong password since then is among the failures since then.
  lemma {:induction false} WrongPasswordsAdd(cfg: Config, r: Run, n: nat, user: Uuid, at: seq<nat>, since: Time)
    requires WrongSince(cfg, r, n, user, at, since)
    requires forall i | 0 <= i < n :: Rises(cfg, r, i, user, since)
    ensures FailuresAfter(r, n, user, since) >= |at|
    decreases |at|
  {
    if at != [] {
      var last := at[|at| - 1];
      assert last < n && WrongAt(cfg, r, last, user);
      WrongPasswordsAdd(cfg, r, last, user, at[..|at| - 1], since);
      assert Rises(cfg, r, last, user, since);
      NeverFalls(cfg, r, last + 1, n, user, since);
    }
  }

  lemma EnoughFailuresLock(cfg: Config, r: Run, n: nat, user: Uuid)
    requires n < |r.worlds|
    requires FailuresAfter(r, n, user, r.worlds[n].now - cfg.window) >= cfg.maxAttempts
    ensures Locked(cfg, r.worlds[n].db, user, r.worlds[n].now)
  {
    CountIsAfter(r.worlds[n].db.attempts, user, r.worlds[n].now - cfg.window);
  }

  // The lockout: MaxAttempts wrong passwords within one window, and the next login is refused as locked,
  // whatever password it presents.
  lemma WrongPasswordsLock(cfg: Config, r: Run, n: nat, u: User, at: seq<nat>)
    requires IsRun(cfg, r) && HonoursKeyLength(cfg.argon) && CollisionFree(cfg, r)
    requires n < |r.ops| && r.ops[n].Login? && r.ops[n].faults == {}
    requires FindUser(r.worlds[n].db.users, ByEmail(r.ops[n].email, cfg.issuer)) == Some(u)
    requires |at| >= cfg.maxAttempts && WrongSince(cfg, r, n, u.id, at, r.worlds[n].now - cfg.window)
    ensures r.replies[n] == Failed(AccountLocked)
  {
    var since := r.worlds[n].now - cfg.window;
    forall i | 0 <= i < n ensures Rises(cfg, r, i, u.id, since) {
      FailuresRise(cfg, r, i, u.id, since);
    }
    WrongPasswordsAdd(cfg, r, n, u.id, at, since);
    EnoughFailuresLock(cfg, r, n, u.id);
    LoginRefines(cfg, r, n);
  }
}
