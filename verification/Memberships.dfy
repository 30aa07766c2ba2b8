// What internal/db/auth.sql.go's ListMemberships and UpsertMembership mean, row by row.
module Memberships {
  import opened Wrappers
  import opened Schema

  // The primary keys of tenants and tenant_memberships.
  ghost predicate UniqueTenants(tenants: seq<Tenant>) {
    forall i, j | 0 <= i < j < |tenants| :: tenants[i].id != tenants[j].id
  }

  ghost predicate UniqueKeys(ms: seq<Membership>) {
    forall i, j | 0 <= i < j < |ms| :: !(ms[i].user == ms[j].user && ms[i].tenant == ms[j].tenant)
  }

  predicate Ascending(at: seq<nat>) { forall j, k | 0 <= j < k < |at| :: at[j] < at[k] }

  // The row is one the listing joins with its tenant.
  ghost predicate Listed(ms: seq<Membership>, tenants: seq<Tenant>, user: Uuid, i: nat) {
    i < |ms| && ms[i].user == user && HasTenant(tenants, ms[i].tenant)
  }

  // The view shows the row: tenant and role are the row's, and the name is its tenant's.
  predicate Shows(tenants: seq<Tenant>, v: MembershipView, m: Membership) {
    v.tenant == m.tenant && v.role == m.role && Tenant(v.tenant, v.tenantName) in tenants
  }

  lemma {:induction false} NameExactly(tenants: seq<Tenant>, id: Uuid)
    ensures TenantName(tenants, id).Some? <==> HasTenant(tenants, id)
    ensures TenantName(tenants, id).Some? ==> Tenant(id, TenantName(tenants, id).value) in tenants
  {
    if tenants != [] {
      NameExactly(tenants[1..], id);
      assert tenants == [tenants[0]] + tenants[1..];
    }
  }

  function ViewOf(m: Membership, tenants: seq<Tenant>, user: Uuid): seq<MembershipView> {
    var name := TenantName(tenants, m.tenant);
    if m.user == user && name.Some? then [MembershipView(m.tenant, name.value, m.role)] else []
  }

  lemma Regroup(a: seq<MembershipView>, b: seq<MembershipView>, c: seq<MembershipView>)
    ensures a + (b + c) == a + b + c
  {}

  lemma {:induction false} ListingAppend(ms: seq<Membership>, m: Membership, tenants: seq<Tenant>, user: Uuid)
    ensures MembershipsOf(ms + [m], tenants, user) == MembershipsOf(ms, tenants, user) + ViewOf(m, tenants, user)
  {
    if ms == [] {
      assert ms + [m] == [m];
    } else {
      assert (ms + [m])[1..] == ms[1..] + [m];
      ListingAppend(ms[1..], m, tenants, user);
      Regroup(ViewOf(ms[0], tenants, user), MembershipsOf(ms[1..], tenants, user), ViewOf(m, tenants, user));
    }
  }

  // `at` lists, in order, the rows of the user that are joined with their tenant, and `views` shows them.
  ghost predicate ShowsRows(ms: seq<Membership>, tenants: seq<Tenant>, user: Uuid, views: seq<MembershipView>,
                            at: seq<nat>) {
    && Ascending(at) && |at| == |views|
    && (forall i: nat :: i in at <==> Listed(ms, tenants, user, i))
    && (forall k | 0 <= k < |at| :: at[k] < |ms| && Shows(tenants, views[k], ms[at[k]]))
  }

  lemma OneMoreRow(ms: seq<Membership>, m: Membership, tenants: seq<Tenant>, user: Uuid, views: seq<MembershipView>,
                   at: seq<nat>, v: MembershipView)
    requires ShowsRows(ms, tenants, user, views, at)
    requires m.user == user && HasTenant(tenants, m.tenant) && Shows(tenants, v, m)
    ensures ShowsRows(ms + [m], tenants, user, views + [v], at + [|ms|])
  {
    forall k | 0 <= k < |at| ensures at[k] < |ms| { assert at[k] in at; }
    forall i: nat ensures i in at + [|ms|] <==> Listed(ms + [m], tenants, user, i) {
      assert i in at <==> Listed(ms, tenants, user, i);
    }
  }

  lemma OtherRow(ms: seq<Membership>, m: Membership, tenants: seq<Tenant>, user: Uuid, views: seq<MembershipView>,
                 at: seq<nat>)
    requires ShowsRows(ms, tenants, user, views, at) && !(m.user == user && HasTenant(tenants, m.tenant))
    ensures ShowsRows(ms + [m], tenants, user, views, at)
  {
    forall i: nat ensures i in at <==> Listed(ms + [m], tenants, user, i) {
      assert i in at <==> Listed(ms, tenants, user, i);
    }
  }

  // The listing has exactly one view for each such row, in the order of the rows.
  lemma {:induction false} ListingExactly(ms: seq<Membership>, tenants: seq<Tenant>, user: Uuid) returns (at: seq<nat>)
    ensures ShowsRows(ms, tenants, user, MembershipsOf(ms, tenants, user), at)
  {
    at := [];
    if ms != [] {
      var before, m := ms[..|ms| - 1], ms[|ms| - 1];
      assert ms == before + [m];
      at := ListingExactly(before, tenants, user);
      ListingAppend(before, m, tenants, user);
      NameExactly(tenants, m.tenant);
      var views := MembershipsOf(before, tenants, user);
      if m.user == user && HasTenant(tenants, m.tenant) {
        OneMoreRow(before, m, tenants, user, views, at, ViewOf(m, tenants, user)[0]);
        at := at + [|before|];
      } else {
        OtherRow(before, m, tenants, user, views, at);
        assert views + [] == views;
      }
    }
  }

  lemma NamesAgree(tenants: seq<Tenant>, a: Tenant, b: Tenant)
    requires UniqueTenants(tenants) && a in tenants && b in tenants && a.id == b.id
    ensures a == b
  {
    var i :| 0 <= i < |tenants| && tenants[i] == a;
    var j :| 0 <= j < |tenants| && tenants[j] == b;
  }

  // A view is listed exactly when it shows some row of the user.
  lemma ViewExactly(ms: seq<Membership>, tenants: seq<Tenant>, user: Uuid, v: MembershipView)
    requires UniqueTenants(tenants)
    ensures v in MembershipsOf(ms, tenants, user) <==> exists m :: m in ms && m.user == user && Shows(tenants, v, m)
  {
    var at := ListingExactly(ms, tenants, user);
    var views := MembershipsOf(ms, tenants, user);
    if v in views {
      var k :| 0 <= k < |views| && views[k] == v;
      assert at[k] in at && ms[at[k]] in ms;
    }
    if m :| m in ms && m.user == user && Shows(tenants, v, m) {
      var i: nat :| i < |ms| && ms[i] == m;
      assert Listed(ms, tenants, user, i);
      var k :| 0 <= k < |at| && at[k] == i;
      NamesAgree(tenants, Tenant(v.tenant, v.tenantName), Tenant(views[k].tenant, views[k].tenantName));
      assert views[k] == v;
    }
  }

  function TenantsOf(views: seq<MembershipView>): (ts: seq<Uuid>)
    ensures |ts| == |views| && forall k | 0 <= k < |ts| :: ts[k] == views[k].tenant
  {
    seq(|views|, k requires 0 <= k < |views| => views[k].tenant)
  }

  // The tenants a user's listing shows are exactly those of the user's memberships, each once.
  lemma TenantsExactly(ms: seq<Membership>, tenants: seq<Tenant>, user: Uuid)
    requires UniqueKeys(ms) && forall i | 0 <= i < |ms| :: HasTenant(tenants, ms[i].tenant)
    ensures var ts := TenantsOf(MembershipsOf(ms, tenants, user));
      && (forall t :: t in ts <==> exists m :: m in ms && m.user == user && m.tenant == t)
      && (forall j, k | 0 <= j < k < |ts| :: ts[j] != ts[k])
  {
    var at := ListingExactly(ms, tenants, user);
    var ts := TenantsOf(MembershipsOf(ms, tenants, user));
    forall t ensures t in ts <==> exists m :: m in ms && m.user == user && m.tenant == t {
      if t in ts {
        var k :| 0 <= k < |ts| && ts[k] == t;
        assert at[k] in at && ms[at[k]] in ms;
      }
      if m :| m in ms && m.user == user && m.tenant == t {
        var i: nat :| i < |ms| && ms[i] == m;
        assert Listed(ms, tenants, user, i);
        var k :| 0 <= k < |at| && at[k] == i;
        assert ts[k] == t;
      }
    }
    forall j, k | 0 <= j < k < |ts| ensures ts[j] != ts[k] {
      assert at[j] in at && at[k] in at && at[j] < at[k];
    }
  }

  predicate SameKey(a: Membership, b: Membership) { a.user == b.user && a.tenant == b.tenant }

  ghost predicate HasKey(ms: seq<Membership>, m: Membership) { exists x :: x in ms && SameKey(x, m) }

  // Upserting puts the row in place of the one of its key, if there is one, or else at the end.
  lemma {:induction false} UpsertExactly(ms: seq<Membership>, m: Membership)
    requires UniqueKeys(ms)
    ensures var ms' := UpsertMembership(ms, m);
      && |ms'| == |ms| + (if HasKey(ms, m) then 0 else 1)
      && (forall i | 0 <= i < |ms| :: ms'[i] == if SameKey(ms[i], m) then m else ms[i])
      && (!HasKey(ms, m) ==> ms'[|ms|] == m)
  {
    if ms != [] {
      var first, rest := ms[0], ms[1..];
      assert ms == [first] + rest;
      if SameKey(first, m) {
        assert forall i | 0 < i < |ms| :: !SameKey(ms[i], m);
      } else {
        UpsertExactly(rest, m);
        assert HasKey(ms, m) <==> HasKey(rest, m);
      }
    }
  }

  lemma UpsertKeepsKeys(ms: seq<Membership>, m: Membership)
    requires UniqueKeys(ms)
    ensures UniqueKeys(UpsertMembership(ms, m))
  {
    UpsertExactly(ms, m);
    forall i | 0 <= i < |ms| ensures SameKey(ms[i], m) ==> HasKey(ms, m) {
      assert ms[i] in ms;
    }
  }
}
