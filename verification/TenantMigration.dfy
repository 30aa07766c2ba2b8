// migrations/auth/20260330043700_remove_tenant_id_from_users.sql: Up moves users.tenant_id into
// tenant_memberships and drops the column, Down adds the column again and fills it from the memberships.
module TenantMigration {
  import opened Wrappers
  import opened Schema

  // The primary key of tenant_memberships and the other columns of a row.
  datatype Key = Key(user: Uuid, tenant: Uuid)
  datatype Row = Row(role: string, createdAt: Time)
  type Memberships = map<Key, Row>

  // users.tenant_id: None when the table has no such column; inside, None is NULL.
  type Column = Option<map<Uuid, Option<Uuid>>>

  datatype State = State(tenants: set<Uuid>, users: set<Uuid>, column: Column, memberships: Memberships)

  ghost predicate Valid(s: State) {
    && (s.column.Some? ==>
      && s.column.value.Keys == s.users
      && forall u | u in s.users :: s.column.value[u].Some? ==> s.column.value[u].value in s.tenants)
    && (forall k | k in s.memberships :: k.user in s.users && k.tenant in s.tenants)
  }

  predicate HasMembership(m: Memberships, user: Uuid) { exists k :: k in m && k.user == user }

  predicate Oldest(m: Memberships, k: Key) {
    k in m && forall j | j in m && j.user == k.user :: m[k].createdAt <= m[j].createdAt
  }

  // Users the INSERT of Up selects: with a tenant_id and without a membership.
  predicate Selected(s: State, user: Uuid)
    requires s.column.Some?
  {
    user in s.users && user in s.column.value && s.column.value[user].Some? && !HasMembership(s.memberships, user)
  }

  // Up leaves `after`, started at time `now`.
  ghost predicate Ups(before: State, now: Time, after: State)
    requires before.column.Some?
  {
    && after.tenants == before.tenants && after.users == before.users && after.column.None?
    && (forall k :: k in after.memberships <==>
         k in before.memberships || (Selected(before, k.user) && before.column.value[k.user] == Some(k.tenant)))
    && (forall k | k in after.memberships ::
         after.memberships[k] == if k in before.memberships then before.memberships[k] else Row("member", now))
  }

  // Down may leave `after`: where rows tie for the oldest, LIMIT 1 takes any of them.
  ghost predicate Downs(before: State, after: State) {
    && after.tenants == before.tenants && after.users == before.users && after.memberships == before.memberships
    && after.column.Some? && after.column.value.Keys == after.users
    && (forall u | u in after.users :: Filled(before.memberships, u, after.column.value[u]))
  }

  ghost predicate Filled(m: Memberships, user: Uuid, tenant: Option<Uuid>) {
    if HasMembership(m, user) then tenant.Some? && Oldest(m, Key(user, tenant.value)) else tenant.None?
  }

  lemma {:induction false} SomeOldest(m: Memberships, keys: set<Key>)
    requires keys != {} && keys <= m.Keys
    ensures exists k :: k in keys && forall j | j in keys :: m[k].createdAt <= m[j].createdAt
  {
    var first :| first in keys;
    var others := keys - {first};
    if others == {} {
      assert keys == {first};
    } else {
      SomeOldest(m, others);
      var k :| k in others && forall j | j in others :: m[k].createdAt <= m[j].createdAt;
      assert forall j | j in keys :: j == first || j in others;
      var least := if m[first].createdAt <= m[k].createdAt then first else k;
      assert least in keys;
    }
  }

  lemma OldestExists(m: Memberships, user: Uuid)
    requires HasMembership(m, user)
    ensures exists k :: Oldest(m, k) && k.user == user
  {
    var keys := set k | k in m && k.user == user;
    var some :| some in m && some.user == user;
    assert some in keys;
    SomeOldest(m, keys);
    var k :| k in keys && forall j | j in keys :: m[k].createdAt <= m[j].createdAt;
    assert forall j | j in m && j.user == user :: j in keys;
    assert Oldest(m, k);
  }

  class Tables {
    const tenants: set<Uuid>
    const users: set<Uuid>
    var column: Column
    var memberships: Memberships

    ghost function Contents(): State reads this { State(tenants, users, column, memberships) }

    constructor (tenants: set<Uuid>, users: set<Uuid>, column: Column, memberships: Memberships)
      ensures Contents() == State(tenants, users, column, memberships)
    {
      this.tenants, this.users, this.column, this.memberships := tenants, users, column, memberships;
    }

    // False when a statement fails: without the column there is nothing to select.
    method Up(now: Time) returns (ok: bool)
      requires Valid(Contents())
      modifies this
      ensures Valid(Contents())
      ensures ok <==> old(column).Some?
      ensures ok ==> Ups(old(Contents()), now, Contents())
      ensures !ok ==> Contents() == old(Contents())
    {
      if column.None? {
        return false;
      }
      ghost var before := Contents();
      var rows := memberships;
      var todo := users;
      while todo != {}
        invariant todo <= users && Contents() == before
        invariant forall k ::
          && (k in rows <==>
            || k in memberships
            || (k.user !in todo && Selected(before, k.user) && before.column.value[k.user] == Some(k.tenant)))
        invariant forall k | k in rows :: rows[k] == if k in memberships then memberships[k] else Row("member", now)
        decreases todo
      {
        var user :| user in todo;
        var tenant := column.value[user];
        if tenant.Some? && !HasMembership(memberships, user) {
          rows := rows[Key(user, tenant.value) := Row("member", now)];
        }
        todo := todo - {user};
      }
      memberships := rows;
      column := None;
      return true;
    }

    // False when the column is there already.
    method Down() returns (ok: bool)
      requires Valid(Contents())
      modifies this
      ensures Valid(Contents())
      ensures ok <==> old(column).None?
      ensures ok ==> Downs(old(Contents()), Contents())
      ensures !ok ==> Contents() == old(Contents())
    {
      if column.Some? {
        return false;
      }
      ghost var before := Contents();
      var filled: map<Uuid, Option<Uuid>> := map[];
      var todo := users;
      while todo != {}
        invariant todo <= users && Contents() == before
        invariant filled.Keys == users - todo
        invariant forall u | u in filled :: Filled(memberships, u, filled[u])
        decreases todo
      {
        var user :| user in todo;
        if HasMembership(memberships, user) {
          OldestExists(memberships, user);
          var first :| first in memberships && first.user == user && Oldest(memberships, first);
          assert first == Key(user, first.tenant);
          filled := filled[user := Some(first.tenant)];
        } else {
          filled := filled[user := None];
        }
        todo := todo - {user};
      }
      column := Some(filled);
      return true;
    }
  }

  // Up takes no membership away or changes it, adds at most one per user, and leaves nobody who had a tenant
  // or a membership without one.
  lemma UpLosesNobody(before: State, now: Time, after: State)
    requires before.column.Some? && Valid(before) && Ups(before, now, after)
    ensures forall k | k in before.memberships ::
      k in after.memberships && after.memberships[k] == before.memberships[k]
    ensures forall j, k | j in after.memberships && k in after.memberships && j.user == k.user ::
      (j in before.memberships && k in before.memberships) || j == k
    ensures forall u | u in before.users ::
      HasMembership(after.memberships, u) <==>
      HasMembership(before.memberships, u) || before.column.value[u].Some?
  {
    forall u | u in before.users
      ensures HasMembership(after.memberships, u) <==>
              HasMembership(before.memberships, u) || before.column.value[u].Some?
    {
      if HasMembership(before.memberships, u) {
        var k :| k in before.memberships && k.user == u;
        assert k in after.memberships;
      } else if before.column.value[u].Some? {
        assert Selected(before, u);
        assert Key(u, before.column.value[u].value) in after.memberships;
      }
    }
    forall j, k | j in after.memberships && k in after.memberships && j.user == k.user
      ensures (j in before.memberships && k in before.memberships) || j == k
    {
      if j in before.memberships { assert HasMembership(before.memberships, j.user); }
      if k in before.memberships { assert HasMembership(before.memberships, k.user); }
    }
  }

  // The one oldest membership of its user.
  ghost predicate OnlyOldest(m: Memberships, k: Key) {
    k in m && forall j | j in m && j.user == k.user && j != k :: m[k].createdAt < m[j].createdAt
  }

  // What Down can put into the column after Up, for one user.
  lemma FilledAfterUp(before: State, now: Time, middle: State, user: Uuid, tenant: Option<Uuid>)
    requires before.column.Some? && Valid(before) && Ups(before, now, middle) && user in before.users
    ensures Filled(middle.memberships, user, tenant) <==>
            if HasMembership(before.memberships, user) then Filled(before.memberships, user, tenant)
            else tenant == before.column.value[user]
  {
    UpLosesNobody(before, now, middle);
    if HasMembership(before.memberships, user) {
      forall k: Key | k.user == user
        ensures k in middle.memberships <==> k in before.memberships
        ensures k in before.memberships ==> middle.memberships[k] == before.memberships[k]
      {
      }
    } else if before.column.value[user].Some? {
      var k := Key(user, before.column.value[user].value);
      assert Selected(before, user) && k in middle.memberships;
      assert forall j | j in middle.memberships && j.user == user :: j == k;
      assert Oldest(middle.memberships, k);
    }
  }

  lemma DownCanDo(before: State, user: Uuid, tenant: Option<Uuid>)
    requires Valid(before) && before.column.None? && user in before.users && Filled(before.memberships, user, tenant)
    ensures exists after :: Downs(before, after) && after.column.value[user] == tenant
  {
    var filled := map u | u in before.users :: if u == user then tenant else Pick(before.memberships, u);
    assert Downs(before, before.(column := Some(filled)));
  }

  ghost function Pick(m: Memberships, user: Uuid): (r: Option<Uuid>)
    ensures Filled(m, user, r)
  {
    if HasMembership(m, user) then
      OldestExists(m, user);
      var k :| Oldest(m, k) && k.user == user;
      assert k == Key(user, k.tenant);
      Some(k.tenant)
    else None
  }

  // Down after Up restores a user's tenant_id, however ties are broken, exactly when the user had no
  // membership before or the one oldest of them was in that tenant.
  lemma DownAfterUpRestores(before: State, now: Time, middle: State, user: Uuid)
    requires before.column.Some? && Valid(before) && Valid(middle) && Ups(before, now, middle) && user in before.users
    ensures (forall after | Downs(middle, after) :: after.column.value[user] == before.column.value[user]) <==>
            !HasMembership(before.memberships, user) ||
            (var tenant := before.column.value[user];
             tenant.Some? && OnlyOldest(before.memberships, Key(user, tenant.value)))
  {
    var m, tenant := before.memberships, before.column.value[user];
    forall after | Downs(middle, after)
      ensures if HasMembership(m, user) then Filled(m, user, after.column.value[user])
              else after.column.value[user] == tenant
    {
      FilledAfterUp(before, now, middle, user, after.column.value[user]);
    }
    if HasMembership(m, user) && !(tenant.Some? && OnlyOldest(m, Key(user, tenant.value))) {
      var other := OtherOldest(m, user, tenant);
      FilledAfterUp(before, now, middle, user, Some(other));
      DownCanDo(middle, user, Some(other));
    }
  }

  // Unless `tenant` is the one oldest, some oldest membership is in another tenant.
  lemma OtherOldest(m: Memberships, user: Uuid, tenant: Option<Uuid>) returns (other: Uuid)
    requires HasMembership(m, user) && !(tenant.Some? && OnlyOldest(m, Key(user, tenant.value)))
    ensures Oldest(m, Key(user, other)) && tenant != Some(other)
  {
    OldestExists(m, user);
    var k :| Oldest(m, k) && k.user == user;
    assert k == Key(user, k.tenant);
    other := k.tenant;
    if tenant == Some(other) {
      var j :| j in m && j.user == user && j != k && m[j].createdAt <= m[k].createdAt;
      assert j == Key(user, j.tenant) && Oldest(m, j);
      other := j.tenant;
    }
  }

  // Down and Up again change no membership, wherever they start; so Up-Down-Up gives the memberships of Up.
  lemma DownUpChangesNothing(first: State, middle: State, now: Time, last: State)
    requires first.column.None? && Valid(first) && Downs(first, middle) && Ups(middle, now, last)
    ensures last == first
  {
    forall k ensures k in last.memberships <==> k in first.memberships {
      if k.user in middle.users { assert Filled(first.memberships, k.user, middle.column.value[k.user]); }
    }
    assert last.memberships == first.memberships;
  }
}
