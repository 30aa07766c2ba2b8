// Registrations in flight together, under read committed: the transaction of PasswordIdentityStore.register
// split at its statements, each of which sees what is committed when it runs.
module RegistrationRace {
  import opened Wrappers
  import opened Schema
  import opened StoreSpec
  import opened Accounts

  // Checked: the email is free to register. Joined: GetUserByIdentifier found a user. Absent: it found none.
  // Inserted: the user row is written, not committed. Stored: so is the credential of that user.
  datatype Step = Checked | Joined(user: Uuid) | Absent | Inserted | Stored(user: Uuid, own: bool)

  // `u` is the row the call would insert. `since` counts the registrations committed when the call looked
  // its email up; `overtaken` says whether another one of that email was committed before the call
  // looked for its user.
  datatype Call = Call(u: User, hash: string, since: nat, overtaken: bool, step: Step)

  datatype Success = Success(email: string, user: Uuid, hash: string, overtaken: bool)

  datatype State = State(users: seq<User>, credentials: map<Uuid, string>, calls: map<nat, Call>, done: seq<Success>)

  datatype Event =
    | Lookup(call: nat, u: User, hash: string)
    | Resolve(call: nat)
    | Insert(call: nat)
    | Store(call: nat)
    | Commit(call: nat)
    | Abort(call: nat)

  predicate Local(issuer: string, u: User) { u.issuer == issuer && u.email == u.subject && u.email != "" }

  // The call has an uncommitted user row.
  predicate Holds(c: Call) { c.step.Inserted? || (c.step.Stored? && c.step.own) }

  predicate At(s: State, call: nat, step: Step) { call in s.calls && s.calls[call].step == step }

  // An insert waits for the end of a transaction that inserted a row it would clash with, and an upsert
  // for one that wrote the same credential.
  ghost predicate Enabled(issuer: string, s: State, e: Event) {
    match e
    case Lookup(call, u, _) => call !in s.calls && Local(issuer, u)
    case Resolve(call) => At(s, call, Checked)
    case Insert(call) =>
      At(s, call, Absent) && forall c | c in s.calls && Holds(s.calls[c]) :: !Clash(s.calls[c].u, s.calls[call].u)
    case Store(call) =>
      && call in s.calls && (s.calls[call].step.Joined? || s.calls[call].step.Inserted?)
      && forall c | c in s.calls && s.calls[c].step.Stored? :: s.calls[c].step.user != Target(s.calls[call])
    case Commit(call) => call in s.calls && s.calls[call].step.Stored?
    case Abort(call) => call in s.calls
  }

  function Target(c: Call): Uuid { if c.step.Joined? then c.step.user else c.u.id }

  // The registrations committed after the first n.
  function After(done: seq<Success>, n: nat): seq<Success> { if n <= |done| then done[n..] else [] }

  predicate Registered(done: seq<Success>, email: string) {
    exists i | 0 <= i < |done| :: done[i].email == email
  }

  function Put(s: State, call: nat, c: Call): State { s.(calls := s.calls[call := c]) }

  function Do(issuer: string, s: State, e: Event): State
    requires Enabled(issuer, s, e)
  {
    match e
    case Lookup(call, u, hash) =>
      var found := FindUser(s.users, ByEmail(u.email, issuer));
      if found.Some? && found.value.id in s.credentials then s
      else Put(s, call, Call(u, hash, |s.done|, false, Checked))
    case Resolve(call) =>
      var c := s.calls[call];
      var found := FindUser(s.users, BySubject(issuer, c.u.subject));
      Put(s, call, c.(overtaken := Registered(After(s.done, c.since), c.u.email),
                      step := if found.Some? then Joined(found.value.id) else Absent))
    case Insert(call) =>
      if ClashesWithSome(s.users, s.calls[call].u) then s.(calls := s.calls - {call})
      else Put(s, call, s.calls[call].(step := Inserted))
    case Store(call) =>
      Put(s, call, s.calls[call].(step := Stored(Target(s.calls[call]), s.calls[call].step.Inserted?)))
    case Commit(call) =>
      var c := s.calls[call];
      State(if c.step.own then s.users + [c.u] else s.users, s.credentials[c.step.user := c.hash],
            s.calls - {call}, s.done + [Success(c.u.email, c.step.user, c.hash, c.overtaken)])
    case Abort(call) => s.(calls := s.calls - {call})
  }

  ghost predicate Reaches(issuer: string, s: State, es: seq<Event>, s': State)
    decreases |es|
  {
    if es == [] then s == s'
    else Enabled(issuer, s, es[0]) && Reaches(issuer, Do(issuer, s, es[0]), es[1..], s')
  }

  // ----- what every reachable state keeps -----

  function AccountOf(issuer: string, s: State, email: string): Option<User> {
    FindUser(s.users, ByEmail(email, issuer))
  }

  ghost predicate UsersRight(issuer: string, users: seq<User>, credentials: map<Uuid, string>) {
    && UniqueUsers(users)
    && forall i | 0 <= i < |users| && users[i].issuer == issuer :: Local(issuer, users[i]) && users[i].id in credentials
  }

  ghost predicate IsAccount(issuer: string, s: State, email: string, user: Uuid) {
    var found := AccountOf(issuer, s, email);
    found.Some? && found.value.id == user
  }

  ghost predicate JoinedRight(issuer: string, s: State, c: Call, user: Uuid) {
    c.overtaken && Registered(s.done, c.u.email) && IsAccount(issuer, s, c.u.email, user)
  }

  ghost predicate OwnRight(s: State, c: Call) { !c.overtaken && !ClashesWithSome(s.users, c.u) }

  ghost predicate CallRight(issuer: string, s: State, c: Call) {
    && Local(issuer, c.u) && c.since <= |s.done|
    && match c.step
       case Checked => Registered(After(s.done, c.since), c.u.email) <==> AccountOf(issuer, s, c.u.email).Some?
       case Joined(user) => JoinedRight(issuer, s, c, user)
       case Absent => !c.overtaken
       case Inserted => OwnRight(s, c)
       case Stored(user, own) => if own then OwnRight(s, c) && user == c.u.id else JoinedRight(issuer, s, c, user)
  }

  ghost predicate HoldersApart(s: State) {
    forall a, b | a in s.calls && b in s.calls && a != b && Holds(s.calls[a]) && Holds(s.calls[b]) ::
      !Clash(s.calls[a].u, s.calls[b].u)
  }

  // Registration i is the last one of its email.
  predicate Last(done: seq<Success>, i: nat)
    requires i < |done|
  {
    forall j | i < j < |done| :: done[j].email != done[i].email
  }

  // Of two successes of one email the later was overtaken; who was overtaken has an earlier one.
  ghost predicate OrderRight(done: seq<Success>) {
    && (forall i, j | 0 <= i < j < |done| && done[i].email == done[j].email :: done[j].overtaken)
    && (forall j | 0 <= j < |done| && done[j].overtaken :: Registered(done[..j], done[j].email))
  }

  // Each success is for the account of its email, and the last one set its credential.
  ghost predicate DoneRight(issuer: string, s: State) {
    && (forall i | 0 <= i < |s.done| :: IsAccount(issuer, s, s.done[i].email, s.done[i].user))
    && (forall i | 0 <= i < |s.done| && Last(s.done, i) ::
          s.done[i].user in s.credentials && s.credentials[s.done[i].user] == s.done[i].hash)
    && OrderRight(s.done)
  }

  ghost predicate Invariant(issuer: string, s: State) {
    && UsersRight(issuer, s.users, s.credentials)
    && (forall c | c in s.calls :: CallRight(issuer, s, s.calls[c]))
    && HoldersApart(s) && DoneRight(issuer, s)
  }

  // ----- lookups -----

  lemma {:induction false} FindAppend(users: seq<User>, u: User, key: UserKey)
    ensures FindUser(users + [u], key) ==
            if FindUser(users, key).Some? then FindUser(users, key) else if Matches(u, key) then Some(u) else None
  {
    if users == [] {
      assert users + [u] == [u];
    } else {
      assert (users + [u])[1..] == users[1..] + [u];
      FindAppend(users[1..], u, key);
    }
  }

  // Local users are found by email and by subject alike.
  lemma SameLookup(issuer: string, users: seq<User>, credentials: map<Uuid, string>, email: string)
    requires UsersRight(issuer, users, credentials) && email != ""
    ensures FindUser(users, BySubject(issuer, email)) == FindUser(users, ByEmail(email, issuer))
  {
    var bySubject, byEmail := FindUser(users, BySubject(issuer, email)), FindUser(users, ByEmail(email, issuer));
    if bySubject.Some? {
      var i :| 0 <= i < |users| && users[i] == bySubject.value;
      FindUnique(users, ByEmail(email, issuer), i);
    }
  }

  lemma FoundHasCredential(issuer: string, s: State, email: string)
    requires UsersRight(issuer, s.users, s.credentials) && AccountOf(issuer, s, email).Some?
    ensures AccountOf(issuer, s, email).value.id in s.credentials
  {
    var found := AccountOf(issuer, s, email).value;
    var i :| 0 <= i < |s.users| && s.users[i] == found;
  }

  lemma SameIdSameUser(users: seq<User>, i: nat, j: nat)
    requires UniqueUsers(users) && i < |users| && j < |users|
    ensures users[i].id == users[j].id ==> i == j
  {
    if i != j { IdsDiffer(users, i, j); }
  }

  lemma AccountsDiffer(issuer: string, s: State, email: string, other: string, user: Uuid)
    requires UsersRight(issuer, s.users, s.credentials)
    requires IsAccount(issuer, s, email, user) && IsAccount(issuer, s, other, user)
    ensures email == other
  {
    var u, v := AccountOf(issuer, s, email).value, AccountOf(issuer, s, other).value;
    var i :| 0 <= i < |s.users| && s.users[i] == u;
    var j :| 0 <= j < |s.users| && s.users[j] == v;
    SameIdSameUser(s.users, i, j);
  }

  // ----- the steps before the commit -----

  lemma SameTables(issuer: string, s: State, s': State, call: nat)
    requires Invariant(issuer, s)
    requires s'.users == s.users && s'.credentials == s.credentials && s'.done == s.done
    requires s'.calls.Keys <= s.calls.Keys + {call}
    requires forall c | c in s'.calls && c != call :: s'.calls[c] == s.calls[c]
    requires call in s'.calls ==> CallRight(issuer, s', s'.calls[call])
    requires call in s'.calls && Holds(s'.calls[call]) ==>
               forall c | c in s.calls && c != call && Holds(s.calls[c]) ::
                 !Clash(s.calls[c].u, s'.calls[call].u) && !Clash(s'.calls[call].u, s.calls[c].u)
    ensures Invariant(issuer, s')
  {
    forall c | c in s'.calls ensures CallRight(issuer, s', s'.calls[c]) {
      if c != call { assert CallRight(issuer, s, s.calls[c]); }
    }
    assert DoneRight(issuer, s') by {
      assert forall email, user :: IsAccount(issuer, s, email, user) <==> IsAccount(issuer, s', email, user);
    }
  }

  lemma LookupKeeps(issuer: string, s: State, e: Event)
    requires Invariant(issuer, s) && Enabled(issuer, s, e) && e.Lookup?
    ensures Invariant(issuer, Do(issuer, s, e))
  {
    if AccountOf(issuer, s, e.u.email).Some? {
      FoundHasCredential(issuer, s, e.u.email);
    } else {
      SameTables(issuer, s, Do(issuer, s, e), e.call);
    }
  }

  lemma RegisteredSince(done: seq<Success>, n: nat, email: string)
    ensures Registered(After(done, n), email) ==> Registered(done, email)
  {
    if Registered(After(done, n), email) {
      var i :| 0 <= i < |After(done, n)| && After(done, n)[i].email == email;
      assert done[n + i].email == email;
    }
  }

  lemma ResolvedRight(issuer: string, s: State, e: Event)
    requires Invariant(issuer, s) && Enabled(issuer, s, e) && e.Resolve?
    ensures CallRight(issuer, s, Do(issuer, s, e).calls[e.call])
  {
    var c := s.calls[e.call];
    assert CallRight(issuer, s, c);
    SameLookup(issuer, s.users, s.credentials, c.u.email);
    RegisteredSince(s.done, c.since, c.u.email);
  }

  lemma ResolveKeeps(issuer: string, s: State, e: Event)
    requires Invariant(issuer, s) && Enabled(issuer, s, e) && e.Resolve?
    ensures Invariant(issuer, Do(issuer, s, e))
  {
    ResolvedRight(issuer, s, e);
    SameTables(issuer, s, Do(issuer, s, e), e.call);
  }

  lemma ClashIsSymmetric(u: User, v: User)
    ensures Clash(u, v) <==> Clash(v, u)
  {}

  lemma WriteKeeps(issuer: string, s: State, e: Event)
    requires Invariant(issuer, s) && Enabled(issuer, s, e) && (e.Insert? || e.Store? || e.Abort?)
    ensures Invariant(issuer, Do(issuer, s, e))
  {
    var c := s.calls[e.call];
    assert CallRight(issuer, s, c);
    forall other | other in s.calls ensures Clash(s.calls[other].u, c.u) <==> Clash(c.u, s.calls[other].u) {
      ClashIsSymmetric(c.u, s.calls[other].u);
    }
    SameTables(issuer, s, Do(issuer, s, e), e.call);
  }

  // ----- the commit -----

  // What a commit adds to the users, if anything, clashes with nobody and leaves the other accounts.
  lemma CommitUsers(issuer: string, s: State, e: Event)
    requires Invariant(issuer, s) && Enabled(issuer, s, e) && e.Commit?
    ensures var c, s' := s.calls[e.call], Do(issuer, s, e);
      && UsersRight(issuer, s'.users, s'.credentials)
      && IsAccount(issuer, s', c.u.email, c.step.user)
      && (forall email, user | IsAccount(issuer, s, email, user) :: IsAccount(issuer, s', email, user))
      && (forall email | email != c.u.email :: AccountOf(issuer, s', email) == AccountOf(issuer, s, email))
  {
    var c, s' := s.calls[e.call], Do(issuer, s, e);
    assert CallRight(issuer, s, c);
    if c.step.own {
      forall email ensures AccountOf(issuer, s', email) ==
        if AccountOf(issuer, s, email).Some? then AccountOf(issuer, s, email)
        else if email == c.u.email then Some(c.u) else None
      {
        FindAppend(s.users, c.u, ByEmail(email, issuer));
      }
      assert AccountOf(issuer, s, c.u.email).None? by {
        var found := AccountOf(issuer, s, c.u.email);
        assert found.Some? ==> found.value in s.users && Clash(found.value, c.u);
      }
      forall i, j | 0 <= i < j < |s'.users| ensures !Clash(s'.users[i], s'.users[j]) {
        if j == |s.users| { assert s.users[i] in s.users; }
      }
    }
  }

  lemma OthersStayRight(issuer: string, s: State, e: Event, other: nat)
    requires Invariant(issuer, s) && Enabled(issuer, s, e) && e.Commit?
    requires other in s.calls && other != e.call
    ensures CallRight(issuer, Do(issuer, s, e), s.calls[other])
  {
    var c, d, s' := s.calls[e.call], s.calls[other], Do(issuer, s, e);
    assert CallRight(issuer, s, c) && CallRight(issuer, s, d);
    CommitUsers(issuer, s, e);
    RegisteredAppend(s.done, Success(c.u.email, c.step.user, c.hash, c.overtaken), d.since, d.u.email);
    if Holds(d) {
      if c.step.own { ClashIsSymmetric(c.u, d.u); }
      forall v | v in s'.users ensures !Clash(v, d.u) {
        if v !in s.users { assert v == c.u && !Clash(s.calls[e.call].u, s.calls[other].u); }
      }
    }
  }

  lemma RegisteredAppend(done: seq<Success>, success: Success, since: nat, email: string)
    requires since <= |done|
    ensures Registered(After(done + [success], since), email) <==>
            Registered(After(done, since), email) || success.email == email
    ensures Registered(done + [success], email) <==> Registered(done, email) || success.email == email
  {
    var a, b := After(done, since), After(done + [success], since);
    assert b == a + [success];
    assert forall i | 0 <= i < |a| :: b[i] == a[i];
    assert forall i | 0 <= i < |done| :: (done + [success])[i] == done[i];
    assert b[|a|] == success && (done + [success])[|done|] == success;
  }

  // A call with its own row is the first success of its email.
  lemma FirstOrOvertaken(issuer: string, s: State, e: Event, i: nat)
    requires Invariant(issuer, s) && Enabled(issuer, s, e) && e.Commit?
    requires i < |s.done| && s.done[i].email == s.calls[e.call].u.email
    ensures s.calls[e.call].overtaken
  {
    var c := s.calls[e.call];
    assert CallRight(issuer, s, c) && IsAccount(issuer, s, s.done[i].email, s.done[i].user);
    var found := AccountOf(issuer, s, c.u.email).value;
    assert found in s.users && Clash(found, c.u);
  }

  lemma CommitOrder(issuer: string, s: State, e: Event)
    requires Invariant(issuer, s) && Enabled(issuer, s, e) && e.Commit?
    ensures OrderRight(Do(issuer, s, e).done)
  {
    var c, done := s.calls[e.call], Do(issuer, s, e).done;
    var n := |s.done|;
    assert CallRight(issuer, s, c);
    assert forall i | 0 <= i < n :: done[i] == s.done[i];
    assert done[..n] == s.done;
    forall i, j | 0 <= i < j < |done| && done[i].email == done[j].email ensures done[j].overtaken {
      if j == n { FirstOrOvertaken(issuer, s, e, i); }
    }
    forall j | 0 <= j < |done| && done[j].overtaken ensures Registered(done[..j], done[j].email) {
      if j < n { assert done[..j] == s.done[..j]; }
    }
  }

  lemma CommitLast(issuer: string, s: State, e: Event, i: nat)
    requires Invariant(issuer, s) && Enabled(issuer, s, e) && e.Commit?
    requires i < |s.done| + 1 && Last(Do(issuer, s, e).done, i)
    ensures var s' := Do(issuer, s, e);
      s'.done[i].user in s'.credentials && s'.credentials[s'.done[i].user] == s'.done[i].hash
  {
    var c, s', n := s.calls[e.call], Do(issuer, s, e), |s.done|;
    if i < n {
      assert s'.done[i] == s.done[i] && s'.done[n].email != s'.done[i].email;
      assert Last(s.done, i) by { assert forall j | i < j < n :: s'.done[j] == s.done[j]; }
      assert IsAccount(issuer, s, s.done[i].email, s.done[i].user);
      CommitUsers(issuer, s, e);
      if s.done[i].user == c.step.user {
        AccountsDiffer(issuer, s', s.done[i].email, c.u.email, c.step.user);
      }
    }
  }

  lemma CommitDone(issuer: string, s: State, e: Event)
    requires Invariant(issuer, s) && Enabled(issuer, s, e) && e.Commit?
    ensures DoneRight(issuer, Do(issuer, s, e))
  {
    var s', n := Do(issuer, s, e), |s.done|;
    CommitUsers(issuer, s, e);
    CommitOrder(issuer, s, e);
    forall i | 0 <= i < |s'.done| ensures IsAccount(issuer, s', s'.done[i].email, s'.done[i].user) {
      if i < n { assert IsAccount(issuer, s, s.done[i].email, s.done[i].user); }
    }
    forall i | 0 <= i < |s'.done| && Last(s'.done, i)
      ensures s'.done[i].user in s'.credentials && s'.credentials[s'.done[i].user] == s'.done[i].hash
    {
      CommitLast(issuer, s, e, i);
    }
  }

  lemma CommitKeeps(issuer: string, s: State, e: Event)
    requires Invariant(issuer, s) && Enabled(issuer, s, e) && e.Commit?
    ensures Invariant(issuer, Do(issuer, s, e))
  {
    CommitUsers(issuer, s, e);
    CommitDone(issuer, s, e);
    var s' := Do(issuer, s, e);
    forall c | c in s'.calls ensures CallRight(issuer, s', s'.calls[c]) {
      OthersStayRight(issuer, s, e, c);
    }
  }

  lemma EventKeepsInvariant(issuer: string, s: State, e: Event)
    requires Invariant(issuer, s) && Enabled(issuer, s, e)
    ensures Invariant(issuer, Do(issuer, s, e))
  {
    match e {
      case Lookup(_, _, _) => LookupKeeps(issuer, s, e);
      case Resolve(_) => ResolveKeeps(issuer, s, e);
      case Commit(_) => CommitKeeps(issuer, s, e);
      case _ => WriteKeeps(issuer, s, e);
    }
  }

  lemma {:induction false} EventsKeepInvariant(issuer: string, s: State, es: seq<Event>, s': State)
    requires Invariant(issuer, s) && Reaches(issuer, s, es, s')
    ensures Invariant(issuer, s')
    decreases |es|
  {
    if es != [] {
      EventKeepsInvariant(issuer, s, es[0]);
      EventsKeepInvariant(issuer, Do(issuer, s, es[0]), es[1..], s');
    }
  }

  // ----- the main results -----

  // No call in flight and nothing done yet, over tables that keep the account invariant.
  function Start(users: seq<User>, credentials: map<Uuid, string>): State { State(users, credentials, map[], []) }

  ghost predicate OneSuccess(done: seq<Success>, email: string) {
    forall i, j | 0 <= i < j < |done| :: !(done[i].email == email && done[j].email == email)
  }

  // At most one registration of an email succeeds exactly when no successful one was overtaken: none had
  // another of that email committed between its lookup of the email and its lookup of the user.
  lemma AtMostOneExactly(issuer: string, users: seq<User>, credentials: map<Uuid, string>, es: seq<Event>, s: State,
                         email: string)
    requires UsersRight(issuer, users, credentials) && Reaches(issuer, Start(users, credentials), es, s)
    ensures OneSuccess(s.done, email) <==>
            forall i | 0 <= i < |s.done| && s.done[i].email == email :: !s.done[i].overtaken
  {
    EventsKeepInvariant(issuer, Start(users, credentials), es, s);
    forall j | 0 <= j < |s.done| && s.done[j].email == email && s.done[j].overtaken ensures !OneSuccess(s.done, email) {
      assert Registered(s.done[..j], email);
      var i :| 0 <= i < |s.done[..j]| && s.done[..j][i].email == email;
      assert s.done[i].email == email;
    }
  }

  // All successes of an email are for one account, and its credential is the one of the last.
  lemma LastRegistrationWins(issuer: string, users: seq<User>, credentials: map<Uuid, string>, es: seq<Event>, s: State,
                             i: nat, j: nat)
    requires UsersRight(issuer, users, credentials) && Reaches(issuer, Start(users, credentials), es, s)
    requires i < |s.done| && j < |s.done| && s.done[i].email == s.done[j].email && Last(s.done, j)
    ensures s.done[i].user == s.done[j].user
    ensures s.done[i].user in s.credentials && s.credentials[s.done[i].user] == s.done[j].hash
  {
    EventsKeepInvariant(issuer, Start(users, credentials), es, s);
    assert IsAccount(issuer, s, s.done[i].email, s.done[i].user);
    assert IsAccount(issuer, s, s.done[j].email, s.done[j].user);
  }

  // ----- a run in which two registrations of one email succeed -----

  lemma Prepend(issuer: string, s: State, e: Event, next: State, rest: seq<Event>, s': State)
    requires Enabled(issuer, s, e) && Do(issuer, s, e) == next && Reaches(issuer, next, rest, s')
    ensures Reaches(issuer, s, [e] + rest, s')
  {
    assert ([e] + rest)[1..] == rest;
  }

  lemma {:induction false} Chain(issuer: string, s: State, es: seq<Event>, s': State, more: seq<Event>, s'': State)
    requires Reaches(issuer, s, es, s') && Reaches(issuer, s', more, s'')
    ensures Reaches(issuer, s, es + more, s'')
    decreases |es|
  {
    if es == [] {
      assert es + more == more;
    } else {
      Chain(issuer, Do(issuer, s, es[0]), es[1..], s', more, s'');
      assert (es + more)[1..] == es[1..] + more;
    }
  }

  function Waiting(u: User, hash: string): Call { Call(u, hash, 0, false, Checked) }

  // Call 0 goes from its lookup to its commit, beside calls that hold no row.
  lemma CallCommits(issuer: string, s: State, u: User, hash: string) returns (es: seq<Event>)
    requires 0 in s.calls && s.calls[0] == Waiting(u, hash) && s.done == []
    requires forall c | c in s.calls :: s.calls[c].step.Checked?
    requires FindUser(s.users, BySubject(issuer, u.subject)).None? && !ClashesWithSome(s.users, u)
    ensures es == [Resolve(0), Insert(0), Store(0), Commit(0)]
    ensures Reaches(issuer, s, es, State(s.users + [u], s.credentials[u.id := hash], s.calls - {0},
                                         [Success(u.email, u.id, hash, false)]))
  {
    var c := Waiting(u, hash);
    var s1, s2 := Put(s, 0, c.(step := Absent)), Put(s, 0, c.(step := Inserted));
    var s3 := Put(s, 0, c.(step := Stored(u.id, true)));
    var s4 := State(s.users + [u], s.credentials[u.id := hash], s.calls - {0}, [Success(u.email, u.id, hash, false)]);
    assert Do(issuer, s, Resolve(0)) == s1;
    assert Do(issuer, s1, Insert(0)) == s2;
    assert Do(issuer, s2, Store(0)) == s3;
    assert Do(issuer, s3, Commit(0)) == s4;
    Prepend(issuer, s3, Commit(0), s4, [], s4);
    Prepend(issuer, s2, Store(0), s3, [Commit(0)], s4);
    Prepend(issuer, s1, Insert(0), s2, [Store(0)] + [Commit(0)], s4);
    Prepend(issuer, s, Resolve(0), s1, [Insert(0)] + ([Store(0)] + [Commit(0)]), s4);
    es := [Resolve(0)] + ([Insert(0)] + ([Store(0)] + [Commit(0)]));
  }

  // Then call 1, which had looked the email up before, finds the user of call 0 and overwrites its credential.
  lemma CallJoins(issuer: string, u: User, hash: string, v: User, other: string) returns (es: seq<Event>, s': State)
    requires Local(issuer, u) && Local(issuer, v) && u.email == v.email
    ensures var first := Success(u.email, u.id, hash, false);
      && s' == State([u], map[u.id := other], map[], [first, Success(u.email, u.id, other, true)])
      && Reaches(issuer, State([u], map[u.id := hash], map[1 := Waiting(v, other)], [first]), es, s')
  {
    var first := Success(u.email, u.id, hash, false);
    var s := State([u], map[u.id := hash], map[1 := Waiting(v, other)], [first]);
    var s1 := s.(calls := map[1 := Call(v, other, 0, true, Joined(u.id))]);
    var s2 := s.(calls := map[1 := Call(v, other, 0, true, Stored(u.id, false))]);
    s' := State([u], map[u.id := other], map[], [first, Success(u.email, u.id, other, true)]);
    assert After([first], 0) == [first] && [first][0].email == v.email;
    assert Do(issuer, s, Resolve(1)) == s1;
    assert Do(issuer, s1, Store(1)) == s2;
    assert Do(issuer, s2, Commit(1)) == s';
    Prepend(issuer, s2, Commit(1), s', [], s');
    Prepend(issuer, s1, Store(1), s2, [Commit(1)], s');
    Prepend(issuer, s, Resolve(1), s1, [Store(1)] + [Commit(1)], s');
    es := [Resolve(1)] + ([Store(1)] + [Commit(1)]);
  }

  // Both report success, and the password of the first no longer works.
  lemma TwoRegistrationsSucceed(issuer: string, u: User, hash: string, v: User, other: string)
    returns (es: seq<Event>, s: State)
    requires Local(issuer, u) && Local(issuer, v) && u.email == v.email
    ensures Reaches(issuer, Start([], map[]), es, s) && !OneSuccess(s.done, u.email)
    ensures s.users == [u] && s.credentials == map[u.id := other]
    ensures |s.done| == 2 && s.done[0].hash == hash && s.done[0].user == u.id
  {
    var s0, s1 := Start([], map[]), State([], map[], map[0 := Waiting(u, hash)], []);
    var s2 := State([], map[], map[0 := Waiting(u, hash), 1 := Waiting(v, other)], []);
    var s3 := State([u], map[u.id := hash], map[1 := Waiting(v, other)], [Success(u.email, u.id, hash, false)]);
    var commits := CallCommits(issuer, s2, u, hash);
    assert s2.calls - {0} == s3.calls && [] + [u] == [u];
    var joins;
    joins, s := CallJoins(issuer, u, hash, v, other);
    Chain(issuer, s2, commits, s3, joins, s);
    Prepend(issuer, s1, Lookup(1, v, other), s2, commits + joins, s);
    Prepend(issuer, s0, Lookup(0, u, hash), s1, [Lookup(1, v, other)] + (commits + joins), s);
    es := [Lookup(0, u, hash)] + ([Lookup(1, v, other)] + (commits + joins));
    assert s.done[0].email == u.email && s.done[1].email == u.email;
  }

  // ----- a registration alone -----

  // The steps of one call with nobody beside it do what the registration transaction does.
  lemma AloneIsRegister(cfg: Config, t: Tables, now: Time, req: RegisterRequest, hash: string, ids: FreshIds,
                        faults: Faults)
    returns (es: seq<Event>)
    requires Accounts.Invariant(cfg, t) && req.email != ""
    requires RegisterTx(cfg, t, now, req, hash, ids, None, faults).Ok?
    ensures var (t', ref, _) := RegisterTx(cfg, t, now, req, hash, ids, None, faults).value;
      Reaches(cfg.issuer, Start(t.users, t.credentials), es,
              State(t'.users, t'.credentials, map[], [Success(req.email, ref.id, hash, false)]))
  {
    var u := NewUser(LocalIdentity(cfg, req), ids, now);
    RegisterCreates(cfg, t, now, req, hash, ids, None, faults);
    RegisterUnfolds(cfg, t, now, req, hash, ids, None, faults);
    CreateChecksClash(cfg.tenantName, t, now, u, ids, faults);
    NoUserYet(cfg, t, req.email);
    var s0 := Start(t.users, t.credentials);
    var s1 := Put(s0, 0, Waiting(u, hash));
    es := CallCommits(cfg.issuer, s1, u, hash);
    var end := State(t.users + [u], t.credentials[u.id := hash], map[], [Success(u.email, u.id, hash, false)]);
    assert s1.calls - {0} == map[];
    Prepend(cfg.issuer, s0, Lookup(0, u, hash), s1, es, end);
    es := [Lookup(0, u, hash)] + es;
  }
}
