// Token requests in flight together: each first invalidates the old tokens of its user and kind and
// later inserts a new one, with other statements in between.
module LiveTokens {
  import opened Wrappers
  import opened Base64
  import opened Token
  import opened Schema
  import opened StoreSpec
  import opened TokenHistory

  type Key = (Uuid, TokenKind)

  // `pending` counts the requests that have invalidated and not yet inserted.
  datatype State = State(tokens: seq<TokenRow>, pending: multiset<Key>)

  datatype Event =
    | Invalidate(user: Uuid, kind: TokenKind, now: Time)
    | Insert(user: Uuid, kind: TokenKind, hash: seq<Byte>, expiresAt: Time)
    | Abandon(user: Uuid, kind: TokenKind)
    | Consume(hash: seq<Byte>, kind: TokenKind, now: Time)
    | PasswordChanged(user: Uuid, now: Time)

  predicate Enabled(s: State, e: Event, inFlight: nat) {
    match e
    case Invalidate(user, kind, _) => s.pending[(user, kind)] < inFlight
    case Insert(user, kind, hash, _) => (user, kind) in s.pending && forall tok | tok in s.tokens :: tok.hash != hash
    case Abandon(user, kind) => (user, kind) in s.pending
    case Consume(_, _, _) => true
    case PasswordChanged(_, _) => true
  }

  function Do(s: State, e: Event): State {
    match e
    case Invalidate(user, kind, now) =>
      State(InvalidateTokens(s.tokens, user, kind, now), s.pending + multiset{(user, kind)})
    case Insert(user, kind, hash, expiresAt) =>
      State(s.tokens + [TokenRow(user, hash, kind, expiresAt, None)], s.pending - multiset{(user, kind)})
    case Abandon(user, kind) => s.(pending := s.pending - multiset{(user, kind)})
    case Consume(hash, kind, now) => s.(tokens := ConsumeTokens(s.tokens, hash, kind, now))
    case PasswordChanged(user, now) => s.(tokens := InvalidateTokens(s.tokens, user, PasswordReset, now))
  }

  ghost predicate Possible(s: State, es: seq<Event>, inFlight: nat)
    decreases |es|
  {
    es == [] || (Enabled(s, es[0], inFlight) && Possible(Do(s, es[0]), es[1..], inFlight))
  }

  function Play(s: State, es: seq<Event>): State
    decreases |es|
  {
    if es == [] then s else Play(Do(s, es[0]), es[1..])
  }

  function LiveCount(tokens: seq<TokenRow>, user: Uuid, kind: TokenKind): nat {
    if tokens == [] then 0
    else LiveCount(tokens[..|tokens| - 1], user, kind) + if Live(tokens[|tokens| - 1], user, kind) then 1 else 0
  }

  // Consuming rows makes none live.
  lemma {:induction false} FewerLive(ts: seq<TokenRow>, ts': seq<TokenRow>, user: Uuid, kind: TokenKind)
    requires |ts'| == |ts|
    requires forall i | 0 <= i < |ts| :: Live(ts'[i], user, kind) ==> Live(ts[i], user, kind)
    ensures LiveCount(ts', user, kind) <= LiveCount(ts, user, kind)
  {
    if ts != [] { FewerLive(ts[..|ts| - 1], ts'[..|ts| - 1], user, kind); }
  }

  lemma {:induction false} NoneLive(ts: seq<TokenRow>, user: Uuid, kind: TokenKind)
    requires forall i | 0 <= i < |ts| :: !Live(ts[i], user, kind)
    ensures LiveCount(ts, user, kind) == 0
  {
    if ts != [] { NoneLive(ts[..|ts| - 1], user, kind); }
  }

  lemma OneMore(ts: seq<TokenRow>, row: TokenRow, user: Uuid, kind: TokenKind)
    ensures LiveCount(ts + [row], user, kind) == LiveCount(ts, user, kind) + if Live(row, user, kind) then 1 else 0
  {
    assert (ts + [row])[..|ts|] == ts;
  }

  // Live tokens and requests in flight of one user and kind.
  function Load(s: State, user: Uuid, kind: TokenKind): nat {
    LiveCount(s.tokens, user, kind) + s.pending[(user, kind)]
  }

  ghost predicate Bounded(s: State, inFlight: nat) {
    forall user: Uuid, kind :: Load(s, user, kind) <= inFlight
  }

  lemma RequestLoad(s: State, e: Event, inFlight: nat, user: Uuid, kind: TokenKind)
    requires Load(s, user, kind) <= inFlight && Enabled(s, e, inFlight) && (e.Invalidate? || e.Abandon?)
    ensures Load(Do(s, e), user, kind) <= inFlight
  {
    if e.Invalidate? && (e.user, e.kind) == (user, kind) {
      NoneLive(Do(s, e).tokens, user, kind);
    } else {
      FewerLive(s.tokens, Do(s, e).tokens, user, kind);
    }
  }

  lemma InsertLoad(s: State, e: Event, inFlight: nat, user: Uuid, kind: TokenKind)
    requires Load(s, user, kind) <= inFlight && Enabled(s, e, inFlight) && e.Insert?
    ensures Load(Do(s, e), user, kind) <= inFlight
  {
    OneMore(s.tokens, TokenRow(e.user, e.hash, e.kind, e.expiresAt, None), user, kind);
  }

  lemma EndLoad(s: State, e: Event, user: Uuid, kind: TokenKind)
    requires e.Consume? || e.PasswordChanged?
    ensures Load(Do(s, e), user, kind) <= Load(s, user, kind)
  {
    FewerLive(s.tokens, Do(s, e).tokens, user, kind);
  }

  lemma EventKeepsBound(s: State, e: Event, inFlight: nat)
    requires Bounded(s, inFlight) && Enabled(s, e, inFlight)
    ensures Bounded(Do(s, e), inFlight)
  {
    forall user: Uuid, kind ensures Load(Do(s, e), user, kind) <= inFlight {
      assert Load(s, user, kind) <= inFlight;
      match e {
        case Insert(_, _, _, _) => InsertLoad(s, e, inFlight, user, kind);
        case Invalidate(_, _, _) => RequestLoad(s, e, inFlight, user, kind);
        case Abandon(_, _) => RequestLoad(s, e, inFlight, user, kind);
        case _ => EndLoad(s, e, user, kind);
      }
    }
  }

  lemma {:induction false} LiveTokenBound(s: State, es: seq<Event>, inFlight: nat, user: Uuid, kind: TokenKind)
    requires Bounded(s, inFlight) && Possible(s, es, inFlight)
    ensures Load(Play(s, es), user, kind) <= inFlight
    decreases |es|
  {
    if es == [] {
      assert Load(s, user, kind) <= inFlight;
    } else {
      EventKeepsBound(s, es[0], inFlight);
      LiveTokenBound(Do(s, es[0]), es[1..], inFlight, user, kind);
    }
  }

  lemma StartIsBounded(inFlight: nat)
    ensures Bounded(State([], multiset{}), inFlight)
  {
    forall user: Uuid, kind ensures Load(State([], multiset{}), user, kind) <= inFlight {}
  }

  // With at most `inFlight` requests of a user and kind at once and every invalidation succeeding, the
  // live tokens and the requests in flight together never exceed that number.
  lemma LiveTokensFromStart(es: seq<Event>, s: State, inFlight: nat, user: Uuid, kind: TokenKind)
    requires Possible(State([], multiset{}), es, inFlight) && s == Play(State([], multiset{}), es)
    ensures LiveCount(s.tokens, user, kind) + s.pending[(user, kind)] <= inFlight
  {
    StartIsBounded(inFlight);
    LiveTokenBound(State([], multiset{}), es, inFlight, user, kind);
  }

  // ----- single use, however the statements interleave -----

  lemma UpdateKeepsDistinct(ts: seq<TokenRow>, ts': seq<TokenRow>)
    requires DistinctHashes(ts) && TokensEvolve(ts, ts') && |ts'| == |ts|
    ensures DistinctHashes(ts')
  {
    forall i, j | 0 <= i < j < |ts'| ensures ts'[i].hash != ts'[j].hash {
      assert RowEvolves(ts[i], ts'[i]) && RowEvolves(ts[j], ts'[j]);
    }
  }

  lemma EventEvolves(s: State, e: Event, inFlight: nat)
    requires Enabled(s, e, inFlight) && DistinctHashes(s.tokens)
    ensures TokensEvolve(s.tokens, Do(s, e).tokens) && DistinctHashes(Do(s, e).tokens)
  {
    if e.Insert? {
      assert forall i | 0 <= i < |s.tokens| :: s.tokens[i] in s.tokens;
    } else {
      UpdateKeepsDistinct(s.tokens, Do(s, e).tokens);
    }
  }

  lemma EvolveFurther(a: seq<TokenRow>, b: seq<TokenRow>, c: seq<TokenRow>)
    requires TokensEvolve(a, b) && TokensEvolve(b, c)
    ensures TokensEvolve(a, c)
  {
    forall x | 0 <= x < |a| ensures RowEvolves(a[x], c[x]) {
      assert RowEvolves(a[x], b[x]) && RowEvolves(b[x], c[x]);
    }
  }

  // consumed_at is written at most once, and no other column of a row ever.
  lemma {:induction false} InterleavedWriteOnce(s: State, es: seq<Event>, inFlight: nat)
    requires Possible(s, es, inFlight) && DistinctHashes(s.tokens)
    ensures TokensEvolve(s.tokens, Play(s, es).tokens) && DistinctHashes(Play(s, es).tokens)
    decreases |es|
  {
    if es != [] {
      EventEvolves(s, es[0], inFlight);
      InterleavedWriteOnce(Do(s, es[0]), es[1..], inFlight);
      EvolveFurther(s.tokens, Do(s, es[0]).tokens, Play(s, es).tokens);
    }
  }

  // The statement finds a usable token of this hash.
  predicate Uses(s: State, e: Event, hash: seq<Byte>) {
    e.Consume? && e.hash == hash && TokenOwner(s.tokens, hash, e.kind, e.now).Some?
  }

  function TimesUsed(s: State, es: seq<Event>, hash: seq<Byte>): nat
    decreases |es|
  {
    if es == [] then 0 else (if Uses(s, es[0], hash) then 1 else 0) + TimesUsed(Do(s, es[0]), es[1..], hash)
  }

  lemma ConsumeSpends(ts: seq<TokenRow>, x: nat, hash: seq<Byte>, kind: TokenKind, now: Time)
    requires x < |ts| && DistinctHashes(ts) && Usable(ts[x], hash, kind, now)
    ensures Spent(ConsumeTokens(ts, hash, kind, now), hash)
  {
    var ts' := ConsumeTokens(ts, hash, kind, now);
    assert ts'[x].hash == hash;
    forall y | 0 <= y < |ts'| && ts'[y].hash == hash ensures ts'[y].consumedAt.Some? {
      assert ts[y].hash == hash;
    }
  }

  lemma UseSpends(s: State, e: Event, hash: seq<Byte>)
    requires DistinctHashes(s.tokens) && Uses(s, e, hash)
    ensures Spent(Do(s, e).tokens, hash)
  {
    var tok :| tok in s.tokens && Usable(tok, hash, e.kind, e.now);
    var x :| 0 <= x < |s.tokens| && s.tokens[x] == tok;
    ConsumeSpends(s.tokens, x, hash, e.kind, e.now);
  }

  lemma SpentStaysSpent(s: State, e: Event, inFlight: nat, hash: seq<Byte>)
    requires Enabled(s, e, inFlight) && Spent(s.tokens, hash)
    ensures Spent(Do(s, e).tokens, hash) && !Uses(s, e, hash)
  {
    var x :| 0 <= x < |s.tokens| && s.tokens[x].hash == hash;
    assert s.tokens[x] in s.tokens && Do(s, e).tokens[x].hash == hash;
  }

  // Among all statements of all calls in flight, at most one consumption of a hash finds its token, as
  // either type, and none once the token is spent.
  lemma {:induction false} InterleavedSingleUse(s: State, es: seq<Event>, inFlight: nat, hash: seq<Byte>)
    requires Possible(s, es, inFlight) && DistinctHashes(s.tokens)
    ensures TimesUsed(s, es, hash) <= if Spent(s.tokens, hash) then 0 else 1
    decreases |es|
  {
    if es != [] {
      EventEvolves(s, es[0], inFlight);
      if Spent(s.tokens, hash) {
        SpentStaysSpent(s, es[0], inFlight, hash);
      } else if Uses(s, es[0], hash) {
        UseSpends(s, es[0], hash);
      }
      InterleavedSingleUse(Do(s, es[0]), es[1..], inFlight, hash);
    }
  }

  // ----- a request alone -----

  // A request that runs alone is an invalidation followed by an insertion or by giving up.
  lemma IssueIsTwoSteps(cfg: Config, t: Tables, now: Time, user: Uuid, kind: TokenKind, raw: seq<Byte>, faults: Faults)
    requires InvalidateOld !in faults
    ensures var (t', r) := IssueToken(cfg, t, now, user, kind, raw, false, faults);
      var s := State(t.tokens, multiset{});
      var invalidated := Do(s, Invalidate(user, kind, now));
      var expiry := if kind.PasswordReset? then cfg.resetExpiry else cfg.verifyExpiry;
      State(t'.tokens, multiset{}) ==
        if r.Ok? then Do(invalidated, Insert(user, kind, GenerateToken(cfg.sha, raw).hash, now + expiry))
        else Do(invalidated, Abandon(user, kind))
  {
    assert multiset{} + multiset{(user, kind)} - multiset{(user, kind)} == multiset{};
  }
}
