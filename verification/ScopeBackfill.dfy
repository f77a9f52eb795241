/** Roles and users get an organization: four statements, then the constraints that rely on them. */
module ScopeBackfill {
  import opened Basics
  import opened Statements

  datatype Org = Org(tenant: int, code: string, depth: int, deleted: bool)

  datatype Role = Role(tenant: int, org: Option<int>, code: string, deleted: bool)

  datatype User = User(tenant: int, org: Option<int>, role: Option<int>)

  type Orgs = map<int, Org>
  type Roles = map<int, Role>
  type Users = map<int, User>

  const DEFAULT_HQ := "DEFAULT-HQ"

  // ---- constraints before and after ----

  predicate LiveOf(o: Org, t: int) {
    o.tenant == t && !o.deleted
  }

  predicate HasLiveOrg(orgs: Orgs, t: int) {
    exists o :: o in orgs && LiveOf(orgs[o], t)
  }

  /** `(tenant_id, organization_id)` references an organization of the tenant; a NULL passes. */
  predicate OrgKey(orgs: Orgs, tenant: int, org: Option<int>) {
    org.Some? ==> org.value in orgs && orgs[org.value].tenant == tenant
  }

  /** The older keys on tenants and organizations. */
  predicate OldOrgKeys(tenants: set<int>, orgs: Orgs, roles: Roles, users: Users) {
    && (forall o :: o in orgs ==> orgs[o].tenant in tenants)
    && (forall r :: r in roles ==> roles[r].tenant in tenants && OrgKey(orgs, roles[r].tenant, roles[r].org))
    && (forall u :: u in users ==> users[u].tenant in tenants && OrgKey(orgs, users[u].tenant, users[u].org))
  }

  /** `fk_users_tenant_role`: a user's role is one of the user's tenant. */
  predicate OldRoleKey(roles: Roles, users: Users) {
    forall u :: u in users && users[u].role.Some?
                ==> users[u].role.value in roles && roles[users[u].role.value].tenant == users[u].tenant
  }

  /** NOT NULL, and the organization is of the row's tenant. */
  predicate InOwnOrg(orgs: Orgs, tenant: int, org: Option<int>) {
    org.Some? && OrgKey(orgs, tenant, org)
  }

  /** `fk_users_tenant_org_role`: a user's role is one of the user's tenant and organization. */
  predicate NewRoleKey(roles: Roles, users: Users) {
    forall u :: u in users && users[u].role.Some? ==>
      && users[u].role.value in roles
      && roles[users[u].role.value].tenant == users[u].tenant
      && roles[users[u].role.value].org == users[u].org
  }

  predicate SameLiveRole(a: Role, b: Role) {
    !a.deleted && !b.deleted && a.tenant == b.tenant && a.code == b.code
  }

  /** `uq_roles_tenant_code_active` */
  predicate UniqueRoleCodes(roles: Roles) {
    forall q, r :: q in roles && r in roles && SameLiveRole(roles[q], roles[r]) ==> q == r
  }

  /** `uq_roles_tenant_org_code_live` */
  predicate UniqueScopedRoleCodes(roles: Roles) {
    forall q, r :: q in roles && r in roles && SameLiveRole(roles[q], roles[r]) && roles[q].org == roles[r].org
                   ==> q == r
  }

  predicate SameLiveOrg(a: Org, b: Org) {
    !a.deleted && !b.deleted && a.tenant == b.tenant && a.code == b.code
  }

  /** `uq_organizations_code_active` */
  predicate UniqueOrgCodes(orgs: Orgs) {
    forall o, p :: o in orgs && p in orgs && SameLiveOrg(orgs[o], orgs[p]) ==> o == p
  }

  // ---- the four statements ----

  /** The first statement: one default organization for each tenant without a live one, nothing else. */
  ghost predicate DefaultsAdded(tenants: set<int>, before: Orgs, after: Orgs) {
    && before.Keys <= after.Keys && (forall o :: o in before ==> after[o] == before[o])
    && (forall t :: t in tenants ==> HasLiveOrg(after, t))
    && (forall o :: o in after && o !in before ==>
          after[o].tenant in tenants && !HasLiveOrg(before, after[o].tenant)
          && after[o].code == "DEFAULT-HQ" && after[o].depth == 0 && !after[o].deleted)
    && (forall o, p :: o in after && p in after && o !in before && p !in before && after[o].tenant == after[p].tenant
                       ==> o == p)
  }

  /** The tenant's live organization of the smallest depth, the oldest of these. */
  predicate IsHeadOf(orgs: Orgs, t: int, h: int) {
    && h in orgs && orgs[h].tenant == t && !orgs[h].deleted
    && forall o :: o in orgs && o != h && orgs[o].tenant == t && !orgs[o].deleted ==>
         orgs[h].depth < orgs[o].depth || (orgs[h].depth == orgs[o].depth && h < o)
  }

  /** `ORDER BY depth, id LIMIT 1` among a tenant's live organizations */
  function FirstOrg(orgs: Orgs, t: int): (r: Option<int>)
    ensures r.Some? <==> HasLiveOrg(orgs, t)
    ensures r.Some? ==> r.value in orgs && LiveOf(orgs[r.value], t)
    ensures r.Some? ==> IsHeadOf(orgs, t, r.value)
  {
    var ranks := map o | o in orgs && LiveOf(orgs[o], t) :: Rank(orgs[o].depth, 0);
    assert forall o :: o in orgs && LiveOf(orgs[o], t) ==> o in ranks;
    assert forall h :: IsFirst(ranks, h) ==> IsHeadOf(orgs, t, h) by {
      forall h | IsFirst(ranks, h) ensures IsHeadOf(orgs, t, h) {
        assert forall o :: o in orgs && o != h && LiveOf(orgs[o], t) ==> Precedes(ranks[h], h, ranks[o], o);
      }
    }
    First(ranks)
  }

  function AssignRoles(orgs: Orgs, roles: Roles): Roles {
    map r | r in roles :: if roles[r].org.None? then roles[r].(org := FirstOrg(orgs, roles[r].tenant)) else roles[r]
  }

  predicate HoldsRole(roles: Roles, u: User) {
    u.role.Some? && u.role.value in roles && roles[u.role.value].tenant == u.tenant
  }

  function AlignUsers(roles: Roles, users: Users): Users {
    map u | u in users
      :: if HoldsRole(roles, users[u]) then users[u].(org := roles[users[u].role.value].org) else users[u]
  }

  function AssignUsers(orgs: Orgs, users: Users): Users {
    map u | u in users :: if users[u].org.None? then users[u].(org := FirstOrg(orgs, users[u].tenant)) else users[u]
  }

  // ---- what they establish ----

  lemma DefaultsKeepOrgCodes(tenants: set<int>, before: Orgs, after: Orgs)
    requires DefaultsAdded(tenants, before, after) && UniqueOrgCodes(before)
    ensures UniqueOrgCodes(after)
  {
    forall o, p | o in after && p in after && SameLiveOrg(after[o], after[p]) ensures o == p {
      if o in before && p in before {
        assert SameLiveOrg(before[o], before[p]);
      } else if o in before {
        assert LiveOf(before[o], after[p].tenant);
      } else if p in before {
        assert LiveOf(before[p], after[o].tenant);
      }
    }
  }

  lemma OrgKeyKept(tenants: set<int>, before: Orgs, after: Orgs, tenant: int, org: Option<int>)
    requires DefaultsAdded(tenants, before, after) && OrgKey(before, tenant, org)
    ensures OrgKey(after, tenant, org)
  {
    if org.Some? {
      var o := org.value;
      assert o in before && o in after && after[o] == before[o];
    }
  }

  lemma RolesScoped(tenants: set<int>, before: Orgs, after: Orgs, roles: Roles, users: Users)
    requires DefaultsAdded(tenants, before, after) && OldOrgKeys(tenants, before, roles, users)
    ensures var scoped := AssignRoles(after, roles);
      forall r :: r in scoped ==> InOwnOrg(after, scoped[r].tenant, scoped[r].org)
  {
    var scoped := AssignRoles(after, roles);
    forall r | r in scoped ensures InOwnOrg(after, scoped[r].tenant, scoped[r].org) {
      OrgKeyKept(tenants, before, after, roles[r].tenant, roles[r].org);
      assert HasLiveOrg(after, roles[r].tenant);
    }
  }

  /** Main result: every user ends in an organization of its own tenant. */
  lemma UsersScoped(tenants: set<int>, before: Orgs, after: Orgs, roles: Roles, users: Users)
    requires DefaultsAdded(tenants, before, after) && OldOrgKeys(tenants, before, roles, users)
    ensures var scoped := AssignUsers(after, AlignUsers(AssignRoles(after, roles), users));
      forall u :: u in scoped ==> InOwnOrg(after, scoped[u].tenant, scoped[u].org)
  {
    RolesScoped(tenants, before, after, roles, users);
    var r1 := AssignRoles(after, roles);
    var aligned := AlignUsers(r1, users);
    forall u | u in users ensures OrgKey(after, aligned[u].tenant, aligned[u].org) {
      OrgKeyKept(tenants, before, after, users[u].tenant, users[u].org);
      if HoldsRole(r1, users[u]) {
        var r := users[u].role.value;
        assert InOwnOrg(after, r1[r].tenant, r1[r].org);
      }
    }
    var scoped := AssignUsers(after, aligned);
    forall u | u in scoped ensures InOwnOrg(after, scoped[u].tenant, scoped[u].org) {
      assert OrgKey(after, aligned[u].tenant, aligned[u].org) && HasLiveOrg(after, users[u].tenant);
    }
  }

  /** Main result: the new role key holds exactly when the old one did. */
  lemma RoleKeyIff(tenants: set<int>, before: Orgs, after: Orgs, roles: Roles, users: Users)
    requires DefaultsAdded(tenants, before, after) && OldOrgKeys(tenants, before, roles, users)
    ensures NewRoleKey(AssignRoles(after, roles), AssignUsers(after, AlignUsers(AssignRoles(after, roles), users)))
       <==> OldRoleKey(roles, users)
  {
    RolesScoped(tenants, before, after, roles, users);
    hide FirstOrg, DefaultsAdded, OldOrgKeys;
    var r1 := AssignRoles(after, roles);
    var u1 := AssignUsers(after, AlignUsers(r1, users));
    forall u | u in users ensures u1[u].role == users[u].role && u1[u].tenant == users[u].tenant {
    }
    if NewRoleKey(r1, u1) {
      forall u | u in users && users[u].role.Some?
        ensures users[u].role.value in roles && roles[users[u].role.value].tenant == users[u].tenant
      {
        assert u1[u].role.value in r1;
      }
    }
    if OldRoleKey(roles, users) {
      forall u | u in u1 && u1[u].role.Some?
        ensures u1[u].role.value in r1 && r1[u1[u].role.value].tenant == u1[u].tenant
        ensures r1[u1[u].role.value].org == u1[u].org
      {
        assert HoldsRole(r1, users[u]);
      }
    }
  }

  /** The wider role key allows at least what the old one did. */
  lemma ScopedRoleCodes(orgs: Orgs, roles: Roles)
    requires UniqueRoleCodes(roles)
    ensures UniqueScopedRoleCodes(AssignRoles(orgs, roles))
  {
    var scoped := AssignRoles(orgs, roles);
    forall q, r | q in scoped && r in scoped && SameLiveRole(scoped[q], scoped[r]) ensures q == r {
      assert SameLiveRole(roles[q], roles[r]);
    }
  }

  predicate InPlace(roles: Roles, u: User) {
    HoldsRole(roles, u) && roles[u.role.value].org == u.org
  }

  /** Roles keep an organization they had; users keep theirs unless their role sits elsewhere. */
  lemma OnlyMissingOrMisplacedMove(orgs: Orgs, roles: Roles, users: Users)
    ensures var r1 := AssignRoles(orgs, roles);
      var u1 := AssignUsers(orgs, AlignUsers(r1, users));
      && r1.Keys == roles.Keys && u1.Keys == users.Keys
      && (forall r :: r in roles && roles[r].org.Some? ==> r1[r] == roles[r])
      && (forall u :: u in users && users[u].org.Some? && !HoldsRole(roles, users[u]) ==> u1[u] == users[u])
      && (forall u :: u in users && users[u].org.Some? && InPlace(roles, users[u]) ==> u1[u] == users[u])
  {
  }

  /** Roles with an organization keep it, the others get the head of their tenant; nothing else changes. */
  ghost predicate RolesFor(orgs: Orgs, before: Roles, after: Roles) {
    && after.Keys == before.Keys
    && forall r :: r in before ==>
         if before[r].org.Some? then after[r] == before[r]
         else after[r].org.Some? && IsHeadOf(orgs, before[r].tenant, after[r].org.value)
              && after[r] == before[r].(org := after[r].org)
  }

  /**
   * A user with a role of its tenant gets the role's organization, another one keeps its own or gets the
   * head of its tenant; nothing else changes.
   */
  ghost predicate UsersFor(orgs: Orgs, roles: Roles, before: Users, after: Users) {
    && after.Keys == before.Keys
    && forall u :: u in before ==>
         && after[u] == before[u].(org := after[u].org)
         && if before[u].role.Some? && before[u].role.value in roles
               && roles[before[u].role.value].tenant == before[u].tenant
            then after[u].org == roles[before[u].role.value].org
            else if before[u].org.Some? then after[u].org == before[u].org
            else after[u].org.Some? && IsHeadOf(orgs, before[u].tenant, after[u].org.value)
  }

  lemma AssignedMeans(tenants: set<int>, before: Orgs, orgs: Orgs, roles: Roles, users: Users)
    requires DefaultsAdded(tenants, before, orgs) && OldOrgKeys(tenants, before, roles, users)
    ensures RolesFor(orgs, roles, AssignRoles(orgs, roles))
    ensures UsersFor(orgs, AssignRoles(orgs, roles), users,
                     AssignUsers(orgs, AlignUsers(AssignRoles(orgs, roles), users)))
  {
    RolesScoped(tenants, before, orgs, roles, users);
    hide IsHeadOf;
  }

  class ScopeTables {
    var tenants: set<int>
    var orgs: Orgs
    var roles: Roles
    var users: Users

    constructor (tenants: set<int>, orgs: Orgs, roles: Roles, users: Users)
      ensures this.tenants == tenants && this.orgs == orgs && this.roles == roles && this.users == users
    {
      this.tenants, this.orgs, this.roles, this.users := tenants, orgs, roles, users;
    }

    /** `nextId` is the organizations' next generated id. */
    method AddDefaultOrganizations(nextId: int)
      requires forall o :: o in orgs ==> o < nextId
      modifies `orgs
      ensures DefaultsAdded(tenants, old(orgs), orgs)
    {
      ghost var before := orgs;
      var missing := set t | t in tenants && !HasLiveOrg(orgs, t);
      var rest, id := missing, nextId;
      while rest != {}
        invariant rest <= missing && id >= nextId
        invariant before.Keys <= orgs.Keys && forall o :: o in before ==> orgs[o] == before[o]
        invariant forall o :: o in orgs ==> o < id
        invariant forall o :: o in orgs && o !in before ==>
                    orgs[o].tenant in missing && orgs[o].tenant !in rest
                    && orgs[o] == Org(orgs[o].tenant, DEFAULT_HQ, 0, false)
        invariant forall o, p :: (o in orgs && o !in before) && (p in orgs && p !in before)
                                 && orgs[o].tenant == orgs[p].tenant
                                 ==> o == p
        invariant forall t :: t in missing && t !in rest ==> HasLiveOrg(orgs, t)
        decreases rest
      {
        var t := PickOne(rest);
        ghost var were := orgs;
        orgs := orgs[id := Org(t, DEFAULT_HQ, 0, false)];
        assert LiveOf(orgs[id], t);
        forall s | HasLiveOrg(were, s) ensures HasLiveOrg(orgs, s) {
          var o :| o in were && LiveOf(were[o], s);
          assert LiveOf(orgs[o], s);
        }
        rest, id := rest - {t}, id + 1;
      }
      forall t | t in tenants && t !in missing ensures HasLiveOrg(orgs, t) {
        var o :| o in before && LiveOf(before[o], t);
        assert LiveOf(orgs[o], t);
      }
    }

    /** The four statements: the columns can be made NOT NULL and the new keys added. */
    method Backfill(nextId: int)
      requires forall o :: o in orgs ==> o < nextId
      requires OldOrgKeys(tenants, orgs, roles, users) && OldRoleKey(roles, users)
      requires UniqueRoleCodes(roles) && UniqueOrgCodes(orgs)
      modifies this
      ensures tenants == old(tenants) && DefaultsAdded(tenants, old(orgs), orgs) && UniqueOrgCodes(orgs)
      ensures roles == AssignRoles(orgs, old(roles))
      ensures users == AssignUsers(orgs, AlignUsers(roles, old(users)))
      ensures RolesFor(orgs, old(roles), roles) && UsersFor(orgs, roles, old(users), users)
      ensures forall t :: t in tenants ==> HasLiveOrg(orgs, t)
      ensures forall r :: r in roles ==> InOwnOrg(orgs, roles[r].tenant, roles[r].org)
      ensures forall u :: u in users ==> InOwnOrg(orgs, users[u].tenant, users[u].org)
      ensures NewRoleKey(roles, users) && UniqueScopedRoleCodes(roles)
    {
      AddDefaultOrganizations(nextId);
      roles := AssignRoles(orgs, roles);
      users := AlignUsers(roles, users);
      users := AssignUsers(orgs, users);
      DefaultsKeepOrgCodes(tenants, old(orgs), orgs);
      RolesScoped(tenants, old(orgs), orgs, old(roles), old(users));
      UsersScoped(tenants, old(orgs), orgs, old(roles), old(users));
      RoleKeyIff(tenants, old(orgs), orgs, old(roles), old(users));
      ScopedRoleCodes(orgs, old(roles));
      AssignedMeans(tenants, old(orgs), orgs, old(roles), old(users));
    }
  }
}
