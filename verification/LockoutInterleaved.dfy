// Login attempts in flight together. Authenticate is split at its commit: a check counts the committed
// failures of the window, and a later step commits the outcome, dated with the clock of the check.
module LockoutInterleaved {
  import opened Wrappers
  import opened Base64
  import opened Hasher
  import opened Schema
  import opened StoreSpec
  import opened Runs
  import opened Unlock

  datatype Limits = Limits(maxAttempts: int, window: Time, inFlight: nat)

  // `pending` holds the rows the calls in flight would commit if their password turns out wrong.
  datatype State = State(now: Time, committed: seq<Attempt>, pending: seq<Attempt>)

  datatype Event =
    | Tick(elapsed: nat)
    | Check(user: Uuid)
    | CommitFailure(call: nat)
    | CommitSuccess(call: nat)
    | Abandon(call: nat)

  function CallsOf(pending: seq<Attempt>, user: Uuid): nat {
    if pending == [] then 0
    else CallsOf(pending[..|pending| - 1], user) + if pending[|pending| - 1].user == user then 1 else 0
  }

  // At most `inFlight` calls of one user run at once.
  predicate Enabled(l: Limits, s: State, e: Event) {
    match e
    case Tick(_) => true
    case Check(user) => CallsOf(s.pending, user) < l.inFlight
    case CommitFailure(call) => call < |s.pending|
    case CommitSuccess(call) => call < |s.pending|
    case Abandon(call) => call < |s.pending|
  }

  function Without(pending: seq<Attempt>, call: nat): seq<Attempt>
    requires call < |pending|
  {
    pending[..call] + pending[call + 1..]
  }

  function Do(l: Limits, s: State, e: Event): State
    requires Enabled(l, s, e)
  {
    match e
    case Tick(elapsed) => s.(now := s.now + elapsed)
    case Check(user) =>
      if IsLockedOut(CountRecentFailures(s.committed, user, s.now - l.window), l.maxAttempts) then s
      else s.(pending := s.pending + [Attempt(user, s.now, false)])
    case CommitFailure(call) =>
      s.(committed := s.committed + [s.pending[call]], pending := Without(s.pending, call))
    case CommitSuccess(call) =>
      s.(committed := s.committed + [s.pending[call].(success := true)], pending := Without(s.pending, call))
    case Abandon(call) => s.(pending := Without(s.pending, call))
  }

  // The events can happen one after the other and lead from s to s'.
  ghost predicate Reaches(l: Limits, s: State, es: seq<Event>, s': State)
    decreases |es|
  {
    if es == [] then s == s' else Enabled(l, s, es[0]) && Reaches(l, Do(l, s, es[0]), es[1..], s')
  }

  // Failed rows of a user in the window (from, to].
  predicate Inside(a: Attempt, user: Uuid, from: Time, to: Time) {
    a.user == user && !a.success && from < a.at <= to
  }

  function InWindow(rows: seq<Attempt>, user: Uuid, from: Time, to: Time): nat {
    if rows == [] then 0
    else InWindow(rows[..|rows| - 1], user, from, to) + if Inside(rows[|rows| - 1], user, from, to) then 1 else 0
  }

  // ----- counting -----

  lemma {:induction false} InWindowAppend(a: seq<Attempt>, b: seq<Attempt>, user: Uuid, from: Time, to: Time)
    ensures InWindow(a + b, user, from, to) == InWindow(a, user, from, to) + InWindow(b, user, from, to)
  {
    if b == [] {
      assert a + b == a;
    } else {
      var n := |b| - 1;
      assert (a + b)[..|a + b| - 1] == a + b[..n];
      InWindowAppend(a, b[..n], user, from, to);
    }
  }

  lemma InWindowOne(x: Attempt, user: Uuid, from: Time, to: Time)
    ensures InWindow([x], user, from, to) == if Inside(x, user, from, to) then 1 else 0
  {
    assert [x][..0] == [];
  }

  lemma InWindowWithout(rows: seq<Attempt>, call: nat, user: Uuid, from: Time, to: Time)
    requires call < |rows|
    ensures InWindow(rows, user, from, to) ==
      InWindow(Without(rows, call), user, from, to) + if Inside(rows[call], user, from, to) then 1 else 0
  {
    var before, after := rows[..call], rows[call + 1..];
    assert rows == before + ([rows[call]] + after);
    InWindowAppend(before, [rows[call]] + after, user, from, to);
    InWindowAppend([rows[call]], after, user, from, to);
    InWindowOne(rows[call], user, from, to);
    InWindowAppend(before, after, user, from, to);
  }

  lemma {:induction false} CallsWithout(rows: seq<Attempt>, call: nat, user: Uuid)
    requires call < |rows|
    ensures CallsOf(Without(rows, call), user) <= CallsOf(rows, user)
  {
    var n := |rows| - 1;
    if call == n {
      assert Without(rows, call) == rows[..n];
    } else {
      CallsWithout(rows[..n], call, user);
      assert Without(rows, call) == Without(rows[..n], call) + [rows[n]];
      assert Without(rows, call)[..|Without(rows, call)| - 1] == Without(rows[..n], call);
    }
  }

  // A window that ends now or later holds no more than the count of the check, and its calls.
  lemma {:induction false} WindowWithinCount(rows: seq<Attempt>, user: Uuid, since: Time, from: Time, to: Time)
    requires since <= from
    ensures InWindow(rows, user, from, to) <= CountRecentFailures(rows, user, since)
  {
    if rows != [] {
      WindowWithinCount(rows[..|rows| - 1], user, since, from, to);
    }
  }

  lemma {:induction false} WindowWithinCalls(rows: seq<Attempt>, user: Uuid, from: Time, to: Time)
    ensures InWindow(rows, user, from, to) <= CallsOf(rows, user)
  {
    if rows != [] {
      WindowWithinCalls(rows[..|rows| - 1], user, from, to);
    }
  }

  // ----- the bound -----

  // Failed rows of the window that ends at `to`, with those that calls in flight may still add.
  function LoadUpTo(l: Limits, s: State, user: Uuid, to: Time): nat {
    InWindow(s.committed, user, to - l.window, to) + InWindow(s.pending, user, to - l.window, to)
  }

  ghost predicate Bounded(l: Limits, s: State) {
    && (forall user: Uuid, to :: LoadUpTo(l, s, user, to) <= l.maxAttempts + l.inFlight - 1)
    && (forall user: Uuid :: CallsOf(s.pending, user) <= l.inFlight)
  }

  // A check that passes adds one call, dated now, to fewer than maxAttempts failures and inFlight calls.
  lemma CheckKeepsBound(l: Limits, s: State, user: Uuid, other: Uuid, to: Time)
    requires Bounded(l, s) && Enabled(l, s, Check(user))
    ensures LoadUpTo(l, Do(l, s, Check(user)), other, to) <= l.maxAttempts + l.inFlight - 1
    ensures CallsOf(Do(l, s, Check(user)).pending, other) <= l.inFlight
  {
    var s', row := Do(l, s, Check(user)), Attempt(user, s.now, false);
    assert LoadUpTo(l, s, other, to) <= l.maxAttempts + l.inFlight - 1;
    if s' != s {
      assert s'.pending[..|s.pending|] == s.pending;
      InWindowAppend(s.pending, [row], other, to - l.window, to);
      InWindowOne(row, other, to - l.window, to);
      if Inside(row, other, to - l.window, to) {
        WindowWithinCount(s.committed, user, s.now - l.window, to - l.window, to);
        WindowWithinCalls(s.pending, user, to - l.window, to);
      }
    }
  }

  lemma CommittedRow(rows: seq<Attempt>, row: Attempt, user: Uuid, from: Time, to: Time)
    ensures InWindow(rows + [row], user, from, to) ==
            InWindow(rows, user, from, to) + if Inside(row, user, from, to) then 1 else 0
  {
    InWindowAppend(rows, [row], user, from, to);
    InWindowOne(row, user, from, to);
  }

  lemma EndKeepsBound(l: Limits, s: State, e: Event, user: Uuid, to: Time)
    requires Bounded(l, s) && Enabled(l, s, e) && (e.CommitFailure? || e.CommitSuccess? || e.Abandon?)
    ensures LoadUpTo(l, Do(l, s, e), user, to) <= l.maxAttempts + l.inFlight - 1
    ensures CallsOf(Do(l, s, e).pending, user) <= l.inFlight
  {
    var row, from := s.pending[e.call], to - l.window;
    assert LoadUpTo(l, s, user, to) <= l.maxAttempts + l.inFlight - 1;
    InWindowWithout(s.pending, e.call, user, from, to);
    CallsWithout(s.pending, e.call, user);
    if !e.Abandon? {
      CommittedRow(s.committed, if e.CommitFailure? then row else row.(success := true), user, from, to);
    }
  }

  lemma EventKeepsBound(l: Limits, s: State, e: Event)
    requires Bounded(l, s) && Enabled(l, s, e)
    ensures Bounded(l, Do(l, s, e))
  {
    var s' := Do(l, s, e);
    forall user: Uuid, to
      ensures LoadUpTo(l, s', user, to) <= l.maxAttempts + l.inFlight - 1 && CallsOf(s'.pending, user) <= l.inFlight
    {
      if e.Check? {
        CheckKeepsBound(l, s, e.user, user, to);
      } else if e.Tick? {
        assert LoadUpTo(l, s, user, to) <= l.maxAttempts + l.inFlight - 1;
      } else {
        EndKeepsBound(l, s, e, user, to);
      }
    }
    forall user: Uuid ensures CallsOf(s'.pending, user) <= l.inFlight {
      assert LoadUpTo(l, s', user, 0) <= l.maxAttempts + l.inFlight - 1;
    }
  }

  lemma {:induction false} EventsKeepBound(l: Limits, s: State, es: seq<Event>, s': State)
    requires Bounded(l, s) && Reaches(l, s, es, s')
    ensures Bounded(l, s')
    decreases |es|
  {
    if es != [] {
      EventKeepsBound(l, s, es[0]);
      EventsKeepBound(l, Do(l, s, es[0]), es[1..], s');
    }
  }

  // However the calls interleave, no window of that length ever holds more than
  // maxAttempts + inFlight - 1 failed rows of a user.
  lemma LockoutBound(l: Limits, now: Time, es: seq<Event>, s: State, user: Uuid, to: Time)
    requires l.maxAttempts >= 1 && l.inFlight >= 1
    requires Reaches(l, State(now, [], []), es, s)
    ensures InWindow(s.committed, user, to - l.window, to) <= l.maxAttempts + l.inFlight - 1
  {
    EventsKeepBound(l, State(now, [], []), es, s);
    assert LoadUpTo(l, s, user, to) <= l.maxAttempts + l.inFlight - 1;
  }

  // ----- the bound is reached -----

  function Same(row: Attempt, n: nat): seq<Attempt> {
    if n == 0 then [] else Same(row, n - 1) + [row]
  }

  function Repeat(e: Event, n: nat): seq<Event> {
    if n == 0 then [] else [e] + Repeat(e, n - 1)
  }

  lemma {:induction false} SameInWindow(row: Attempt, n: nat, from: Time, to: Time)
    requires !row.success && from < row.at <= to
    ensures |Same(row, n)| == n && InWindow(Same(row, n), row.user, from, to) == n
  {
    if n > 0 {
      SameInWindow(row, n - 1, from, to);
      assert Same(row, n)[..n - 1] == Same(row, n - 1);
    }
  }

  lemma {:induction false} SameCounts(row: Attempt, n: nat, since: Time)
    requires !row.success && since < row.at
    ensures |Same(row, n)| == n && CountRecentFailures(Same(row, n), row.user, since) == n
    ensures CallsOf(Same(row, n), row.user) == n
  {
    if n > 0 {
      SameCounts(row, n - 1, since);
      assert Same(row, n)[..n - 1] == Same(row, n - 1);
    }
  }

  lemma {:induction false} Chain(l: Limits, s: State, es: seq<Event>, s': State, more: seq<Event>, s'': State)
    requires Reaches(l, s, es, s') && Reaches(l, s', more, s'')
    ensures Reaches(l, s, es + more, s'')
    decreases |es|
  {
    if es == [] {
      assert es + more == more;
    } else {
      Chain(l, Do(l, s, es[0]), es[1..], s', more, s'');
      assert (es + more)[1..] == es[1..] + more;
    }
  }

  lemma Prepend(l: Limits, s: State, e: Event, next: State, rest: seq<Event>, s': State)
    requires Enabled(l, s, e) && Do(l, s, e) == next && Reaches(l, next, rest, s')
    ensures Reaches(l, s, [e] + rest, s')
  {
    assert ([e] + rest)[1..] == rest;
  }

  lemma OneCheckPasses(l: Limits, now: Time, row: Attempt, failed: nat, waiting: nat)
    requires row == Attempt(row.user, now, false) && l.window > 0
    requires failed < l.maxAttempts && waiting < l.inFlight
    ensures var s := State(now, Same(row, failed), Same(row, waiting));
      && Enabled(l, s, Check(row.user))
      && Do(l, s, Check(row.user)) == State(now, Same(row, failed), Same(row, waiting + 1))
  {
    SameCounts(row, failed, now - l.window);
    SameCounts(row, waiting, now - l.window);
  }

  // n checks in a row all pass while the committed failures are fewer than maxAttempts.
  lemma {:induction false} ChecksPass(l: Limits, now: Time, row: Attempt, failed: nat, waiting: nat, n: nat)
    requires row == Attempt(row.user, now, false) && l.window > 0
    requires failed < l.maxAttempts && waiting + n <= l.inFlight
    ensures Reaches(l, State(now, Same(row, failed), Same(row, waiting)), Repeat(Check(row.user), n),
                    State(now, Same(row, failed), Same(row, waiting + n)))
    decreases n
  {
    if n > 0 {
      OneCheckPasses(l, now, row, failed, waiting);
      ChecksPass(l, now, row, failed, waiting + 1, n - 1);
      Prepend(l, State(now, Same(row, failed), Same(row, waiting)), Check(row.user),
              State(now, Same(row, failed), Same(row, waiting + 1)), Repeat(Check(row.user), n - 1),
              State(now, Same(row, failed), Same(row, waiting + n)));
    }
  }

  function LastFails(n: nat): seq<Event> {
    if n == 0 then [] else [CommitFailure(n - 1)] + LastFails(n - 1)
  }

  lemma {:induction false} SameLength(row: Attempt, n: nat)
    ensures |Same(row, n)| == n
  {
    if n > 0 { SameLength(row, n - 1); }
  }

  // n calls in flight commit their failures, the latest first.
  lemma {:induction false} FailuresCommit(l: Limits, now: Time, row: Attempt, failed: nat, n: nat)
    ensures Reaches(l, State(now, Same(row, failed), Same(row, n)), LastFails(n), State(now, Same(row, failed + n), []))
    decreases n
  {
    if n > 0 {
      FailuresCommit(l, now, row, failed + 1, n - 1);
      SameLength(row, n);
      assert Without(Same(row, n), n - 1) == Same(row, n - 1);
      assert LastFails(n)[1..] == LastFails(n - 1);
    }
  }

  // Rounds of n calls at once, all failing: the rows grow by n.
  lemma RoundReaches(l: Limits, now: Time, row: Attempt, failed: nat, n: nat)
    requires row == Attempt(row.user, now, false) && l.window > 0
    requires failed < l.maxAttempts && n <= l.inFlight
    ensures Reaches(l, State(now, Same(row, failed), []), Repeat(Check(row.user), n) + LastFails(n),
                    State(now, Same(row, failed + n), []))
  {
    var start, middle, end :=
      State(now, Same(row, failed), []), State(now, Same(row, failed), Same(row, n)),
      State(now, Same(row, failed + n), []);
    assert Reaches(l, start, Repeat(Check(row.user), n), middle) by { ChecksPass(l, now, row, failed, 0, n); }
    assert Reaches(l, middle, LastFails(n), end) by { FailuresCommit(l, now, row, failed, n); }
    Chain(l, start, Repeat(Check(row.user), n), middle, LastFails(n), end);
  }

  // Serial failures: check, commit, check, commit, ...
  function Serial(user: Uuid, n: nat): seq<Event> {
    if n == 0 then [] else Serial(user, n - 1) + (Repeat(Check(user), 1) + LastFails(1))
  }

  lemma {:induction false} SerialFailures(l: Limits, now: Time, row: Attempt, n: nat)
    requires row == Attempt(row.user, now, false) && l.window > 0 && l.inFlight >= 1 && n <= l.maxAttempts
    ensures Reaches(l, State(now, [], []), Serial(row.user, n), State(now, Same(row, n), []))
  {
    if n > 0 {
      SerialFailures(l, now, row, n - 1);
      RoundReaches(l, now, row, n - 1, 1);
      Chain(l, State(now, [], []), Serial(row.user, n - 1), State(now, Same(row, n - 1), []),
            Repeat(Check(row.user), 1) + LastFails(1), State(now, Same(row, n), []));
    }
  }

  // maxAttempts - 1 serial failures and then inFlight calls at once.
  lemma WorstRun(l: Limits, now: Time, row: Attempt, total: nat) returns (es: seq<Event>)
    requires l.maxAttempts >= 1 && l.inFlight >= 1 && l.window > 0 && row == Attempt(row.user, now, false)
    requires total == l.maxAttempts - 1 + l.inFlight
    ensures Reaches(l, State(now, [], []), es, State(now, Same(row, total), []))
  {
    var m := l.maxAttempts - 1;
    var start, middle, s := State(now, [], []), State(now, Same(row, m), []), State(now, Same(row, total), []);
    var burst := Repeat(Check(row.user), l.inFlight) + LastFails(l.inFlight);
    assert Reaches(l, start, Serial(row.user, m), middle) by { SerialFailures(l, now, row, m); }
    assert Reaches(l, middle, burst, s) by { RoundReaches(l, now, row, m, l.inFlight); }
    Chain(l, start, Serial(row.user, m), middle, burst, s);
    es := Serial(row.user, m) + burst;
  }

  // The run ends with exactly that many failures in the window: the bound is reached and cannot be lowered.
  lemma BoundIsReached(l: Limits, now: Time, user: Uuid) returns (es: seq<Event>, rows: seq<Attempt>)
    requires l.maxAttempts >= 1 && l.inFlight >= 1 && l.window > 0
    ensures InWindow(rows, user, now - l.window, now) == l.maxAttempts + l.inFlight - 1
    ensures Reaches(l, State(now, [], []), es, State(now, rows, []))
  {
    var row, total := Attempt(user, now, false), l.maxAttempts - 1 + l.inFlight;
    rows := Same(row, total);
    SameInWindow(row, total, now - l.window, now);
    es := WorstRun(l, now, row, total);
  }

  // ----- serial calls are check and outcome back to back -----

  // A call gets past its check and to its outcome: no call before that fails, the account is not locked and
  // has a credential that can be checked.
  predicate Decides(cfg: Config, hasher: PasswordHasher, t: Tables, now: Time, u: User, password: string,
                    faults: Faults)
  {
    && faults !! {LookupUser, BeginTx, CountAttempts, ReadCredential} && !Locked(cfg, t, u.id, now)
    && u.id in t.credentials && hasher.verify(password, t.credentials[u.id]).Verdict?
  }

  // And its outcome is committed; a verified user's success also touches last_login_at.
  predicate Commits(cfg: Config, u: User, matched: bool, faults: Faults) {
    && faults !! {RecordAttempt, CommitTx}
    && (matched && (cfg.requireVerified ==> u.emailVerified) ==> TouchLastLogin !in faults)
  }

  lemma AuthenticateRecords(cfg: Config, hasher: PasswordHasher, t: Tables, now: Time, u: User, email: string,
                            password: string, salt: seq<Byte>, faults: Faults)
    requires FindUser(t.users, ByEmail(email, cfg.issuer)) == Some(u)
    ensures var as' := Authenticate(cfg, hasher, t, now, email, password, salt, faults).0.attempts;
      if Decides(cfg, hasher, t, now, u, password, faults)
         && Commits(cfg, u, hasher.verify(password, t.credentials[u.id]).matched, faults)
      then as' == t.attempts + [Attempt(u.id, now, hasher.verify(password, t.credentials[u.id]).matched)]
      else as' == t.attempts
  {
    if u.id in t.credentials {
      var verdict := hasher.verify(password, t.credentials[u.id]);
      if verdict.Verdict? {
        LogInRecords(cfg, hasher, t, now, u, password, salt, verdict.needsRehash, faults);
      }
    }
  }

  // A check that passes and the end of that call, with nothing in between.
  lemma CheckThenEnd(l: Limits, now: Time, committed: seq<Attempt>, user: Uuid, success: bool)
    requires l.inFlight == 1 && !IsLockedOut(CountRecentFailures(committed, user, now - l.window), l.maxAttempts)
    ensures var checked := Do(l, State(now, committed, []), Check(user));
      && checked.pending == [Attempt(user, now, false)]
      && Do(l, checked, if success then CommitSuccess(0) else CommitFailure(0)) ==
         State(now, committed + [Attempt(user, now, success)], [])
  {
    assert [] + [Attempt(user, now, false)] == [Attempt(user, now, false)];
    assert Without([Attempt(user, now, false)], 0) == [];
  }

  // What Authenticate does to the attempts is a check and, exactly if it decides and commits, the commit of
  // a success for a matching password and of a failure for another.
  lemma AuthenticateIsTwoSteps(cfg: Config, hasher: PasswordHasher, t: Tables, now: Time, u: User, email: string,
                               password: string, salt: seq<Byte>, faults: Faults)
    requires FindUser(t.users, ByEmail(email, cfg.issuer)) == Some(u)
    ensures var l := Limits(cfg.maxAttempts, cfg.window, 1);
      var s, checked := State(now, t.attempts, []), Do(l, State(now, t.attempts, []), Check(u.id));
      var s' := State(now, Authenticate(cfg, hasher, t, now, email, password, salt, faults).0.attempts, []);
      if Decides(cfg, hasher, t, now, u, password, faults)
         && Commits(cfg, u, hasher.verify(password, t.credentials[u.id]).matched, faults)
      then checked.pending == [Attempt(u.id, now, false)]
           && s' == Do(l, checked, if hasher.verify(password, t.credentials[u.id]).matched then CommitSuccess(0)
                                   else CommitFailure(0))
      else s' == s
  {
    AuthenticateRecords(cfg, hasher, t, now, u, email, password, salt, faults);
    if Decides(cfg, hasher, t, now, u, password, faults) {
      CheckThenEnd(Limits(cfg.maxAttempts, cfg.window, 1), now, t.attempts, u.id,
                   hasher.verify(password, t.credentials[u.id]).matched);
    }
  }

  lemma {:induction false} SerialBoundAt(cfg: Config, r: Run, n: nat)
    requires IsRun(cfg, r) && n <= |r.ops| && cfg.maxAttempts >= 1
    ensures Bounded(Limits(cfg.maxAttempts, cfg.window, 1), State(r.worlds[n].now, r.worlds[n].db.attempts, []))
  {
    var l := Limits(cfg.maxAttempts, cfg.window, 1);
    if n > 0 {
      SerialBoundAt(cfg, r, n - 1);
      AttemptsAt(cfg, r, n - 1);
      var now, as0, as' := r.worlds[n - 1].now, r.worlds[n - 1].db.attempts, r.worlds[n].db.attempts;
      if as' != as0 {
        var user, success :| as' == as0 + [Attempt(user, now, success)]
          && (!success ==> !Locked(cfg, r.worlds[n - 1].db, user, now));
        assert !success ==> !Locked(cfg, r.worlds[n - 1].db, user, now);
        assert !success ==> !IsLockedOut(CountRecentFailures(as0, user, now - cfg.window), cfg.maxAttempts);
        AppendKeepsBound(l, now, as0, Attempt(user, now, success));
      }
      TimeKeepsBound(l, as', now, r.worlds[n].now);
    }
  }

  lemma TimeKeepsBound(l: Limits, rows: seq<Attempt>, now: Time, later: Time)
    requires Bounded(l, State(now, rows, []))
    ensures Bounded(l, State(later, rows, []))
  {
    forall user: Uuid, to ensures LoadUpTo(l, State(later, rows, []), user, to) <= l.maxAttempts + l.inFlight - 1 {
      assert LoadUpTo(l, State(now, rows, []), user, to) <= l.maxAttempts + l.inFlight - 1;
    }
  }

  lemma AppendKeepsBound(l: Limits, now: Time, rows: seq<Attempt>, row: Attempt)
    requires Bounded(l, State(now, rows, [])) && l.inFlight == 1 && row.at == now
    requires !row.success ==> !IsLockedOut(CountRecentFailures(rows, row.user, now - l.window), l.maxAttempts)
    ensures Bounded(l, State(now, rows + [row], []))
  {
    var s := State(now, rows + [row], []);
    forall user: Uuid, to ensures LoadUpTo(l, s, user, to) <= l.maxAttempts + l.inFlight - 1 {
      assert LoadUpTo(l, State(now, rows, []), user, to) <= l.maxAttempts + l.inFlight - 1;
      InWindowAppend(rows, [row], user, to - l.window, to);
      InWindowOne(row, user, to - l.window, to);
      if Inside(row, user, to - l.window, to) {
        WindowWithinCount(rows, user, now - l.window, to - l.window, to);
      }
    }
  }

  // In a serial run no window ever holds more than maxAttempts failures of a user.
  lemma SerialLockoutBound(cfg: Config, r: Run, n: nat, user: Uuid, to: Time)
    requires IsRun(cfg, r) && n <= |r.ops| && cfg.maxAttempts >= 1
    ensures InWindow(r.worlds[n].db.attempts, user, to - cfg.window, to) <= cfg.maxAttempts
  {
    SerialBoundAt(cfg, r, n);
    var l := Limits(cfg.maxAttempts, cfg.window, 1);
    assert LoadUpTo(l, State(r.worlds[n].now, r.worlds[n].db.attempts, []), user, to) <= cfg.maxAttempts;
  }
}
