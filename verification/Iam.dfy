/**
 * Roles, assignments and the two ways to ask what a user may do: a check for one permission in
 * one place, and the list of sites where a permission holds. An empty site id in a check counts
 * as no site.
 */
module Iam {
  import opened Common

  type Id = string

  const RESOURCES: seq<string> :=
    ["facility", "schedule", "job", "status", "tool", "product", "dashboard", "user", "employee", "billing", "settings"]

  const OWNER_PERMISSION: string := "owner:all"

  function ResourcePermissions(resources: seq<string>): seq<string> {
    if resources == [] then []
    else
      var n := |resources| - 1;
      ResourcePermissions(resources[..n])
      + [resources[n] + ":read", resources[n] + ":write", resources[n] + ":admin"]
  }

  function AllPermissions(): seq<string> {
    ResourcePermissions(RESOURCES) + [OWNER_PERMISSION]
  }

  predicate IsPermission(p: string) {
    p in AllPermissions()
  }

  predicate EndsWith(s: string, suffix: string) {
    |suffix| <= |s| && s[|s| - |suffix|..] == suffix
  }

  datatype SystemRole = SUPPORT | ENGINEER

  /** What internal staff hold, which lives in code and not in the tables. */
  predicate StaffHolds(role: SystemRole, p: string) {
    IsPermission(p)
    && match role
       case SUPPORT => EndsWith(p, ":read") && !("billing:" <= p)
       case ENGINEER => p != OWNER_PERMISSION
  }

  predicate ActsOn(p: string, resource: string) {
    p == resource + ":read" || p == resource + ":write" || p == resource + ":admin"
  }

  lemma {:induction false} ResourcePermissionsAre(resources: seq<string>, p: string)
    ensures p in ResourcePermissions(resources) <==> exists r :: r in resources && ActsOn(p, r)
  {
    if resources != [] {
      var n := |resources| - 1;
      ResourcePermissionsAre(resources[..n], p);
      assert resources == resources[..n] + [resources[n]];
      assert p in ResourcePermissions(resources) <==> p in ResourcePermissions(resources[..n]) || ActsOn(p, resources[n]);
    }
  }

  /** The parts of the product a permission can speak of. */
  predicate Area(r: string) {
    || r == "facility" || r == "schedule" || r == "job" || r == "status" || r == "tool" || r == "product"
    || r == "dashboard" || r == "user" || r == "employee" || r == "billing" || r == "settings"
  }

  lemma AreasAreResources(r: string)
    ensures r in RESOURCES <==> Area(r)
  {
    assert RESOURCES[0] == "facility" && RESOURCES[1] == "schedule" && RESOURCES[2] == "job" && RESOURCES[3] == "status";
    assert RESOURCES[4] == "tool" && RESOURCES[5] == "product" && RESOURCES[6] == "dashboard" && RESOURCES[7] == "user";
    assert RESOURCES[8] == "employee" && RESOURCES[9] == "billing" && RESOURCES[10] == "settings";
  }

  /** The catalogue: reading, writing and administering each area, and owning everything. */
  lemma Catalogued(p: string)
    ensures IsPermission(p) <==> p == "owner:all" || exists r :: Area(r) && ActsOn(p, r)
  {
    ResourcePermissionsAre(RESOURCES, p);
    forall r
      ensures r in RESOURCES <==> Area(r)
    {
      AreasAreResources(r);
    }
  }

  lemma LastChars(r: string)
    ensures EndsWith(r + ":read", ":read")
    ensures !EndsWith(r + ":write", ":read") && !EndsWith(r + ":admin", ":read") && !EndsWith("owner:all", ":read")
  {
    assert (r + ":read")[|r|..] == ":read";
    var s := ":read";
    assert s[4] == 'd' && ":write"[5] == 'e' && ":admin"[5] == 'n' && "owner:all"[8] == 'l';
    assert (r + ":write")[|r| + 5] == 'e' && (r + ":admin")[|r| + 5] == 'n';
  }

  lemma BillingStart(r: string, action: string)
    requires Area(r)
    ensures "billing:" <= r + (":" + action) <==> r == "billing"
  {
    if r == "billing" {
      assert r + (":" + action) == "billing:" + action;
    } else {
      assert r[0] != 'b' && (r + (":" + action))[0] == r[0];
    }
  }

  lemma StaffOnArea(p: string, r: string)
    requires Area(r) && ActsOn(p, r)
    ensures p != "owner:all"
    ensures EndsWith(p, ":read") && !("billing:" <= p) <==> r != "billing" && p == r + ":read"
  {
    LastChars(r);
    BillingStart(r, "read");
    assert r + (":" + "read") == r + ":read";
    assert p[0] == r[0] && r[0] != 'o';
  }

  /** Support staff read every area but billing and nothing else; engineers do everything but own. */
  lemma StaffPermissions(p: string)
    ensures StaffHolds(SUPPORT, p) <==> exists r :: Area(r) && r != "billing" && p == r + ":read"
    ensures StaffHolds(ENGINEER, p) <==> exists r :: Area(r) && ActsOn(p, r)
  {
    Catalogued(p);
    LastChars("");
    if r :| Area(r) && ActsOn(p, r) {
      StaffOnArea(p, r);
      forall q | Area(q) && q != "billing" && p == q + ":read"
        ensures StaffHolds(SUPPORT, p)
      {
        StaffOnArea(p, q);
      }
    } else {
      assert forall q :: Area(q) && p == q + ":read" ==> ActsOn(p, q);
    }
  }

  datatype Scope = WORKSPACE | SITE

  datatype Role = Role(workspace: Id, name: string, scope: Scope, permissions: seq<string>, isSystem: bool)

  datatype Membership = Membership(user: Id, workspace: Id)

  datatype Assignment = Assignment(id: Id, membership: Id, role: Id, site: Option<Id>)

  datatype Access = AllSites | Only(sites: set<Id>)

  /** The tables: the system role of each user, the workspace of each site, and the rest. */
  datatype Tables = Tables(
    users: map<Id, Option<SystemRole>>,
    sites: map<Id, Id>,
    memberships: map<Id, Membership>,
    roles: map<Id, Role>,
    assignments: seq<Assignment>)

  // ---------------------------------------------------------------------------
  // Two questions
  // ---------------------------------------------------------------------------

  /** The foreign keys of the assignment table. */
  ghost predicate Linked(t: Tables) {
    forall a :: a in t.assignments ==> Resolves(t, a)
  }

  predicate Resolves(t: Tables, a: Assignment) {
    a.membership in t.memberships && a.role in t.roles
  }

  /** An assignment of this user in this workspace whose role lists the permission. */
  predicate Grants(t: Tables, a: Assignment, user: Id, workspace: Id, p: string) {
    Resolves(t, a) && t.memberships[a.membership] == Membership(user, workspace) && p in t.roles[a.role].permissions
  }

  predicate Reaches(a: Assignment, site: Option<Id>) {
    a.site.None? || (site.Some? && site.value != "" && a.site == site)
  }

  ghost predicate Granted(t: Tables, user: Id, p: string, workspace: Id, site: Option<Id>) {
    exists a :: a in t.assignments && Grants(t, a, user, workspace, p) && Reaches(a, site)
  }

  /** The user holds the permission in the workspace, at the site if one is given. */
  ghost predicate Holds(t: Tables, user: Id, p: string, workspace: Id, site: Option<Id>) {
    && user in t.users
    && match t.users[user]
       case Some(role) => StaffHolds(role, p)
       case None => IsPermission(p) && Granted(t, user, p, workspace, site)
  }

  method GetEffectivePermissions(t: Tables, user: Id, workspace: Id, site: Option<Id>) returns (permissions: set<string>)
    requires Linked(t)
    ensures forall p :: p in permissions <==> Holds(t, user, p, workspace, site)
  {
    if user !in t.users {
      return {};
    }
    if t.users[user].Some? {
      return set p | p in AllPermissions() && StaffHolds(t.users[user].value, p);
    }
    permissions := {};
    for i := 0 to |t.assignments|
      invariant forall p :: p in permissions <==> IsPermission(p) && GrantedBefore(t, i, user, p, workspace, site)
    {
      var a := t.assignments[i];
      assert a in t.assignments;
      if t.memberships[a.membership] == Membership(user, workspace) && Reaches(a, site) {
        permissions := permissions + set p | p in t.roles[a.role].permissions && IsPermission(p);
      }
    }
    forall p {
      GrantedBeforeAll(t, user, p, workspace, site);
    }
  }

  ghost predicate GrantedBefore(t: Tables, i: nat, user: Id, p: string, workspace: Id, site: Option<Id>)
    requires i <= |t.assignments|
  {
    exists k :: 0 <= k < i && Grants(t, t.assignments[k], user, workspace, p) && Reaches(t.assignments[k], site)
  }

  lemma GrantedBeforeAll(t: Tables, user: Id, p: string, workspace: Id, site: Option<Id>)
    ensures GrantedBefore(t, |t.assignments|, user, p, workspace, site) <==> Granted(t, user, p, workspace, site)
  {
    if Granted(t, user, p, workspace, site) {
      var a :| a in t.assignments && Grants(t, a, user, workspace, p) && Reaches(a, site);
      var k :| 0 <= k < |t.assignments| && t.assignments[k] == a;
    }
  }

  method HasPermission(t: Tables, user: Id, p: string, workspace: Id, site: Option<Id>) returns (r: bool)
    requires Linked(t)
    ensures r == Holds(t, user, p, workspace, site)
  {
    var permissions := GetEffectivePermissions(t, user, workspace, site);
    r := p in permissions;
  }

  /** Where the assignments grant a permission: everywhere once one names no site. */
  function GrantedAccess(t: Tables, assignments: seq<Assignment>, user: Id, p: string, workspace: Id): Access {
    if assignments == [] then Only({})
    else
      var n := |assignments| - 1;
      var a := assignments[n];
      var before := GrantedAccess(t, assignments[..n], user, p, workspace);
      if before.AllSites? || !Grants(t, a, user, workspace, p) then before
      else if a.site.None? then AllSites
      else Only(before.sites + {a.site.value})
  }

  function AccessibleSites(t: Tables, user: Id, p: string, workspace: Id): Access {
    if user !in t.users then Only({})
    else if t.users[user].Some? then if StaffHolds(t.users[user].value, p) then AllSites else Only({})
    else GrantedAccess(t, t.assignments, user, p, workspace)
  }

  lemma {:induction false} AllSitesStays(t: Tables, assignments: seq<Assignment>, k: nat, user: Id, p: string, workspace: Id)
    requires k <= |assignments| && GrantedAccess(t, assignments[..k], user, p, workspace).AllSites?
    ensures GrantedAccess(t, assignments, user, p, workspace).AllSites?
  {
    var n := |assignments| - 1;
    if k == |assignments| {
      assert assignments[..k] == assignments;
    } else {
      assert assignments[..n][..k] == assignments[..k];
      AllSitesStays(t, assignments[..n], k, user, p, workspace);
    }
  }

  method GetAccessibleSites(t: Tables, user: Id, p: string, workspace: Id) returns (r: Access)
    requires Linked(t)
    ensures r == AccessibleSites(t, user, p, workspace)
  {
    if user !in t.users {
      return Only({});
    }
    if t.users[user].Some? {
      return if StaffHolds(t.users[user].value, p) then AllSites else Only({});
    }
    var sites: set<Id> := {};
    for i := 0 to |t.assignments|
      invariant GrantedAccess(t, t.assignments[..i], user, p, workspace) == Only(sites)
    {
      var a := t.assignments[i];
      assert a in t.assignments && t.assignments[..i + 1][..i] == t.assignments[..i];
      if t.memberships[a.membership] == Membership(user, workspace) && p in t.roles[a.role].permissions {
        if a.site.None? {
          AllSitesStays(t, t.assignments, i + 1, user, p, workspace);
          return AllSites;
        }
        sites := sites + {a.site.value};
      }
    }
    assert t.assignments[..|t.assignments|] == t.assignments;
    r := Only(sites);
  }

  // ---------------------------------------------------------------------------
  // The two answers agree
  // ---------------------------------------------------------------------------

  predicate Covers(access: Access, site: Option<Id>) {
    access.AllSites? || (site.Some? && site.value != "" && site.value in access.sites)
  }

  ghost predicate GrantedIn(t: Tables, assignments: seq<Assignment>, user: Id, p: string, workspace: Id, site: Option<Id>) {
    exists a :: a in assignments && Grants(t, a, user, workspace, p) && Reaches(a, site)
  }

  lemma GrantedInMore(t: Tables, before: seq<Assignment>, a: Assignment, user: Id, p: string, workspace: Id, site: Option<Id>)
    ensures GrantedIn(t, before + [a], user, p, workspace, site)
       <==> GrantedIn(t, before, user, p, workspace, site) || (Grants(t, a, user, workspace, p) && Reaches(a, site))
  {
    if GrantedIn(t, before, user, p, workspace, site) {
      var x :| x in before && Grants(t, x, user, workspace, p) && Reaches(x, site);
      assert x in before + [a];
    }
    if Grants(t, a, user, workspace, p) && Reaches(a, site) {
      assert a in before + [a];
    }
  }

  lemma {:induction false} AccessCoversGrants(t: Tables, assignments: seq<Assignment>, user: Id, p: string, workspace: Id,
                                              site: Option<Id>)
    ensures Covers(GrantedAccess(t, assignments, user, p, workspace), site)
       <==> GrantedIn(t, assignments, user, p, workspace, site)
  {
    if assignments != [] {
      var n := |assignments| - 1;
      AccessCoversGrants(t, assignments[..n], user, p, workspace, site);
      assert assignments[..n] + [assignments[n]] == assignments;
      GrantedInMore(t, assignments[..n], assignments[n], user, p, workspace, site);
    }
  }

  /**
   * The check at a site succeeds exactly when the permission is catalogued and the list says
   * all or names that site; without a site, exactly when it says all. An uncatalogued string
   * that a role happens to list is ignored by the check but not by the list.
   */
  lemma PermissionAgreement(t: Tables, user: Id, p: string, workspace: Id, site: Option<Id>)
    ensures Holds(t, user, p, workspace, site) <==> IsPermission(p) && Covers(AccessibleSites(t, user, p, workspace), site)
    ensures IsPermission(p) ==>
              (Holds(t, user, p, workspace, None) <==> AccessibleSites(t, user, p, workspace) == AllSites)
    ensures Holds(t, user, p, workspace, Some("")) <==> Holds(t, user, p, workspace, None)
  {
    AccessCoversGrants(t, t.assignments, user, p, workspace, site);
    AccessCoversGrants(t, t.assignments, user, p, workspace, None);
    AccessCoversGrants(t, t.assignments, user, p, workspace, Some(""));
    assert forall s :: Granted(t, user, p, workspace, s) == GrantedIn(t, t.assignments, user, p, workspace, s);
  }

  /** The sites of the workspace that the list offers to the user. */
  function ListAccessibleSites(t: Tables, user: Id, workspace: Id, p: string): set<Id> {
    var access := AccessibleSites(t, user, p, workspace);
    set s | s in t.sites && t.sites[s] == workspace && (access.AllSites? || s in access.sites)
  }

  /** A site is offered exactly when it is the workspace's and the check at it would succeed. */
  lemma ListedSites(t: Tables, user: Id, workspace: Id, p: string, site: Id)
    requires IsPermission(p) && site != ""
    ensures site in ListAccessibleSites(t, user, workspace, p)
       <==> site in t.sites && t.sites[site] == workspace && Holds(t, user, p, workspace, Some(site))
  {
    PermissionAgreement(t, user, p, workspace, Some(site));
  }

  // ---------------------------------------------------------------------------
  // Changing roles and assignments
  // ---------------------------------------------------------------------------

  datatype Error =
    | UserNotFound
    | SystemUser
    | RoleNotFound
    | ScopeMismatch
    | SiteNotFound
    | MembershipNotFound
    | AssignmentNotFound
    | InvalidPermissions
    | OwnerReserved
    | SystemRoleFixed
    | NameTaken

  /** Scope, site, membership and workspace of an assignment fit together, and its user is no internal staff. */
  predicate Fits(t: Tables, a: Assignment) {
    && Resolves(t, a)
    && var role := t.roles[a.role];
       var m := t.memberships[a.membership];
       && (role.scope == SITE <==> a.site.Some?)
       && (a.site.Some? ==> a.site.value in t.sites && t.sites[a.site.value] == role.workspace)
       && m.workspace == role.workspace
       && m.user in t.users && t.users[m.user].None?
  }

  predicate SameKey(a: Role, b: Role) {
    a.workspace == b.workspace && a.name == b.name && a.scope == b.scope
  }

  predicate WellFormed(role: Role) {
    && (forall p :: p in role.permissions ==> IsPermission(p))
    && (OWNER_PERMISSION in role.permissions ==> role.isSystem)
  }

  ghost predicate Consistent(t: Tables) {
    && (forall a :: a in t.assignments ==> Fits(t, a))
    && DistinctIds(t.assignments)
    && (forall r :: r in t.roles ==> WellFormed(t.roles[r]))
    && (forall r, s :: r in t.roles && s in t.roles && r != s ==> !SameKey(t.roles[r], t.roles[s]))
    && (forall m, n :: m in t.memberships && n in t.memberships && m != n ==> t.memberships[m] != t.memberships[n])
  }

  ghost predicate MemberOf(t: Tables, user: Id, workspace: Id) {
    exists m :: m in t.memberships && t.memberships[m] == Membership(user, workspace)
  }

  /** Why an assignment is refused, in the order the checks are made; None when it is accepted. */
  ghost function Refusal(t: Tables, user: Id, role: Id, site: Option<Id>): Option<Error> {
    if user !in t.users then Some(UserNotFound)
    else if t.users[user].Some? then Some(SystemUser)
    else if role !in t.roles then Some(RoleNotFound)
    else if t.roles[role].scope == WORKSPACE && site.Some? then Some(ScopeMismatch)
    else if t.roles[role].scope == SITE && site.None? then Some(ScopeMismatch)
    else if site.Some? && site.value !in t.sites then Some(SiteNotFound)
    else if site.Some? && t.sites[site.value] != t.roles[role].workspace then Some(ScopeMismatch)
    else if !MemberOf(t, user, t.roles[role].workspace) then Some(MembershipNotFound)
    else None
  }

  /** An assignment is accepted exactly when some membership makes it one that fits the tables. */
  lemma AcceptedIff(t: Tables, id: Id, user: Id, role: Id, site: Option<Id>)
    ensures Refusal(t, user, role, site) == None <==>
            exists m :: m in t.memberships && t.memberships[m].user == user && Fits(t, Assignment(id, m, role, site))
  {
    if Refusal(t, user, role, site) == None {
      var m :| m in t.memberships && t.memberships[m] == Membership(user, t.roles[role].workspace);
      assert Fits(t, Assignment(id, m, role, site));
    } else if m :| m in t.memberships && t.memberships[m].user == user && Fits(t, Assignment(id, m, role, site)) {
      assert t.memberships[m] == Membership(user, t.roles[role].workspace);
      assert MemberOf(t, user, t.roles[role].workspace);
    }
  }

  /** The site goes with the role: none for a role of the workspace, one of the role's workspace for a role of sites. */
  predicate SiteGoesWith(t: Tables, role: Role, site: Option<Id>) {
    match role.scope
    case WORKSPACE => site.None?
    case SITE => site.Some? && site.value in t.sites && t.sites[site.value] == role.workspace
  }

  /** Which error an assignment is refused with. */
  lemma RefusedWith(t: Tables, user: Id, role: Id, site: Option<Id>)
    ensures var refusal := Refusal(t, user, role, site);
            var customer := user in t.users && t.users[user].None?;
            var named := customer && role in t.roles;
            && (refusal == Some(UserNotFound) <==> user !in t.users)
            && (refusal == Some(SystemUser) <==> user in t.users && t.users[user].Some?)
            && (refusal == Some(RoleNotFound) <==> customer && role !in t.roles)
            && (refusal == Some(SiteNotFound) <==>
                named && t.roles[role].scope == SITE && site.Some? && site.value !in t.sites)
            && (refusal == Some(ScopeMismatch) <==>
                named && !SiteGoesWith(t, t.roles[role], site)
                && !(t.roles[role].scope == SITE && site.Some? && site.value !in t.sites))
            && (refusal == Some(MembershipNotFound) <==>
                named && SiteGoesWith(t, t.roles[role], site)
                && forall m :: m in t.memberships ==> t.memberships[m] != Membership(user, t.roles[role].workspace))
            && (refusal == None ==> named && SiteGoesWith(t, t.roles[role], site))
  {
  }

  function Keep(assignments: seq<Assignment>, keep: Assignment -> bool): seq<Assignment> {
    if assignments == [] then []
    else
      var n := |assignments| - 1;
      Keep(assignments[..n], keep) + if keep(assignments[n]) then [assignments[n]] else []
  }

  function WithoutId(assignments: seq<Assignment>, id: Id): seq<Assignment> {
    Keep(assignments, (a: Assignment) => a.id != id)
  }

  function WithoutRole(assignments: seq<Assignment>, role: Id): seq<Assignment> {
    Keep(assignments, (a: Assignment) => a.role != role)
  }

  predicate HasId(assignments: seq<Assignment>, id: Id) {
    exists a :: a in assignments && a.id == id
  }

  ghost predicate DistinctIds(assignments: seq<Assignment>) {
    assignments == [] ||
    (DistinctIds(assignments[..|assignments| - 1])
     && !HasId(assignments[..|assignments| - 1], assignments[|assignments| - 1].id))
  }

  lemma {:induction false} KeepMembers(assignments: seq<Assignment>, keep: Assignment -> bool, a: Assignment)
    ensures a in Keep(assignments, keep) <==> a in assignments && keep(a)
  {
    if assignments != [] {
      var n := |assignments| - 1;
      KeepMembers(assignments[..n], keep, a);
      assert assignments == assignments[..n] + [assignments[n]];
    }
  }

  lemma {:induction false} KeepSize(assignments: seq<Assignment>, keep: Assignment -> bool)
    ensures |Keep(assignments, keep)| <= |assignments|
    ensures |Keep(assignments, keep)| == |assignments| <==> forall a :: a in assignments ==> keep(a)
    ensures |Keep(assignments, keep)| == |assignments| ==> Keep(assignments, keep) == assignments
  {
    if assignments != [] {
      var n := |assignments| - 1;
      KeepSize(assignments[..n], keep);
      assert assignments == assignments[..n] + [assignments[n]];
    }
  }

  lemma KeepSpec(assignments: seq<Assignment>, keep: Assignment -> bool)
    ensures forall a :: a in Keep(assignments, keep) <==> a in assignments && keep(a)
    ensures |Keep(assignments, keep)| <= |assignments|
    ensures |Keep(assignments, keep)| == |assignments| <==> forall a :: a in assignments ==> keep(a)
    ensures |Keep(assignments, keep)| == |assignments| ==> Keep(assignments, keep) == assignments
  {
    KeepSize(assignments, keep);
    forall a
      ensures a in Keep(assignments, keep) <==> a in assignments && keep(a)
    {
      KeepMembers(assignments, keep, a);
    }
  }

  lemma {:induction false} KeepDistinct(assignments: seq<Assignment>, keep: Assignment -> bool)
    requires DistinctIds(assignments)
    ensures DistinctIds(Keep(assignments, keep))
  {
    if assignments != [] {
      var n := |assignments| - 1;
      KeepDistinct(assignments[..n], keep);
      if keep(assignments[n]) {
        assert !HasId(Keep(assignments[..n], keep), assignments[n].id) by {
          KeepSpec(assignments[..n], keep);
        }
        DistinctMore(Keep(assignments[..n], keep), assignments[n]);
      } else {
        assert Keep(assignments, keep) == Keep(assignments[..n], keep);
      }
    }
  }

  lemma DistinctMore(before: seq<Assignment>, a: Assignment)
    requires DistinctIds(before) && !HasId(before, a.id)
    ensures DistinctIds(before + [a])
  {
    assert (before + [a])[..|before|] == before;
  }

  lemma RemovalKeepsConsistent(t: Tables, role: Id)
    requires Consistent(t)
    ensures Consistent(t.(roles := t.roles - {role}, assignments := WithoutRole(t.assignments, role)))
    ensures role !in t.roles ==> WithoutRole(t.assignments, role) == t.assignments
  {
    var keep := (a: Assignment) => a.role != role;
    var t' := t.(roles := t.roles - {role}, assignments := WithoutRole(t.assignments, role));
    KeepDistinct(t.assignments, keep);
    forall a | a in t'.assignments
      ensures Fits(t', a)
    {
      KeepMembers(t.assignments, keep, a);
      FitsWithoutRole(t, t', a, role);
    }
    if role !in t.roles {
      forall a | a in t.assignments
        ensures keep(a)
      {
        assert Fits(t, a);
      }
      KeepSize(t.assignments, keep);
    }
  }

  /** The assignments left are those of other roles. */
  ghost predicate OnlyOthers(before: seq<Assignment>, after: seq<Assignment>, role: Id) {
    forall a :: a in after <==> a in before && a.role != role
  }

  lemma WithoutRoleIs(assignments: seq<Assignment>, role: Id)
    ensures OnlyOthers(assignments, WithoutRole(assignments, role), role)
  {
    KeepSpec(assignments, (a: Assignment) => a.role != role);
  }

  lemma FitsWithoutRole(t: Tables, t': Tables, a: Assignment, role: Id)
    requires Fits(t, a) && a.role != role && t' == t.(roles := t.roles - {role}, assignments := t'.assignments)
    ensures Fits(t', a)
  {
  }

  class Directory {
    var tables: Tables

    ghost predicate Valid()
      reads this
    {
      Consistent(tables)
    }

    constructor (tables: Tables)
      requires Consistent(tables)
      ensures Valid() && this.tables == tables
    {
      this.tables := tables;
    }

    method Assign(id: Id, user: Id, role: Id, site: Option<Id>) returns (r: Result<Assignment, Error>)
      requires Valid() && !HasId(tables.assignments, id)
      modifies this
      ensures Valid()
      ensures r.Err? <==> Refusal(old(tables), user, role, site).Some?
      ensures r.Err? ==> r.error == Refusal(old(tables), user, role, site).value && tables == old(tables)
      ensures r.Ok? ==>
                var a := r.value;
                && a.id == id && a.role == role && a.site == site
                && role in tables.roles && a.membership in tables.memberships
                && tables.memberships[a.membership] == Membership(user, tables.roles[role].workspace)
                && tables == old(tables).(assignments := old(tables).assignments + [a])
    {
      if user !in tables.users {
        return Err(UserNotFound);
      }
      if tables.users[user].Some? {
        return Err(SystemUser);
      }
      if role !in tables.roles {
        return Err(RoleNotFound);
      }
      var found := tables.roles[role];
      if found.scope == WORKSPACE && site.Some? {
        return Err(ScopeMismatch);
      }
      if found.scope == SITE && site.None? {
        return Err(ScopeMismatch);
      }
      if site.Some? {
        if site.value !in tables.sites {
          return Err(SiteNotFound);
        }
        if tables.sites[site.value] != found.workspace {
          return Err(ScopeMismatch);
        }
      }
      var members := set m | m in tables.memberships && tables.memberships[m] == Membership(user, found.workspace);
      if members == {} {
        assert !MemberOf(tables, user, found.workspace) by {
          assert forall m :: m in tables.memberships && tables.memberships[m] == Membership(user, found.workspace) ==> m in members;
        }
        return Err(MembershipNotFound);
      }
      var membership :| membership in members;
      var a := Assignment(id, membership, role, site);
      DistinctMore(tables.assignments, a);
      tables := tables.(assignments := tables.assignments + [a]);
      r := Ok(a);
    }

    method Unassign(id: Id) returns (r: Result<(), Error>)
      requires Valid()
      modifies this
      ensures Valid()
      ensures r == if HasId(old(tables).assignments, id) then Ok(()) else Err(AssignmentNotFound)
      ensures tables == old(tables).(assignments := WithoutId(old(tables).assignments, id))
      ensures forall a :: a in tables.assignments <==> a in old(tables).assignments && a.id != id
    {
      var kept := WithoutId(tables.assignments, id);
      KeepSpec(tables.assignments, (a: Assignment) => a.id != id);
      KeepDistinct(tables.assignments, (a: Assignment) => a.id != id);
      if |kept| == |tables.assignments| {
        return Err(AssignmentNotFound);
      }
      tables := tables.(assignments := kept);
      r := Ok(());
    }

    method CreateRole(id: Id, workspace: Id, name: string, scope: Scope, permissions: seq<string>)
      returns (r: Result<(), Error>)
      requires Valid() && id !in tables.roles
      modifies this
      ensures Valid()
      ensures r.Ok? ==> tables == old(tables).(roles := old(tables).roles[id := Role(workspace, name, scope, permissions, false)])
      ensures r.Err? ==> tables == old(tables)
      ensures r == if exists p :: p in permissions && !IsPermission(p) then Err(InvalidPermissions)
                   else if OWNER_PERMISSION in permissions then Err(OwnerReserved)
                   else if Taken(old(tables), workspace, name, scope, None) then Err(NameTaken)
                   else Ok(())
    {
      if exists p :: p in permissions && !IsPermission(p) {
        return Err(InvalidPermissions);
      }
      if OWNER_PERMISSION in permissions {
        return Err(OwnerReserved);
      }
      if Taken(tables, workspace, name, scope, None) {
        return Err(NameTaken);
      }
      tables := tables.(roles := tables.roles[id := Role(workspace, name, scope, permissions, false)]);
      r := Ok(());
    }

    method UpdateRole(id: Id, name: Option<string>, permissions: Option<seq<string>>) returns (r: Result<(), Error>)
      requires Valid()
      modifies this
      ensures Valid()
      ensures r.Err? ==> tables == old(tables)
      ensures r.Ok? ==>
                && id in old(tables).roles && !old(tables).roles[id].isSystem
                && tables == old(tables).(roles := old(tables).roles[id := Edited(old(tables).roles[id], name, permissions)])
                && var before, after := old(tables).roles[id], tables.roles[id];
                   && after.name == (if name.Some? then name.value else before.name)
                   && after.permissions == (if permissions.Some? then permissions.value else before.permissions)
                   && after.workspace == before.workspace && after.scope == before.scope && !after.isSystem
      ensures r == if id !in old(tables).roles then Err(RoleNotFound)
                   else if old(tables).roles[id].isSystem then Err(SystemRoleFixed)
                   else if permissions.Some? && exists p :: p in permissions.value && !IsPermission(p) then Err(InvalidPermissions)
                   else if permissions.Some? && OWNER_PERMISSION in permissions.value then Err(OwnerReserved)
                   else
                     var edited := Edited(old(tables).roles[id], name, permissions);
                     if Taken(old(tables), edited.workspace, edited.name, edited.scope, Some(id)) then Err(NameTaken)
                     else Ok(())
    {
      if id !in tables.roles {
        return Err(RoleNotFound);
      }
      var existing := tables.roles[id];
      if existing.isSystem {
        return Err(SystemRoleFixed);
      }
      if permissions.Some? {
        if exists p :: p in permissions.value && !IsPermission(p) {
          return Err(InvalidPermissions);
        }
        if OWNER_PERMISSION in permissions.value {
          return Err(OwnerReserved);
        }
      }
      var edited := Edited(existing, name, permissions);
      if Taken(tables, edited.workspace, edited.name, edited.scope, Some(id)) {
        return Err(NameTaken);
      }
      tables := tables.(roles := tables.roles[id := edited]);
      EditKeepsFit(old(tables), id, edited);
      r := Ok(());
    }

    method RemoveRole(id: Id) returns (r: Result<(), Error>)
      requires Valid()
      modifies this
      ensures Valid()
      ensures r == if id in old(tables).roles && old(tables).roles[id].isSystem then Err(SystemRoleFixed) else Ok(())
      ensures r.Err? ==> tables == old(tables)
      ensures r.Ok? ==> tables == old(tables).(roles := old(tables).roles - {id},
                                               assignments := WithoutRole(old(tables).assignments, id))
      ensures r.Ok? ==> OnlyOthers(old(tables).assignments, tables.assignments, id)
    {
      RemovalKeepsConsistent(tables, id);
      WithoutRoleIs(tables.assignments, id);
      if id !in tables.roles {
        return Ok(());
      }
      if tables.roles[id].isSystem {
        return Err(SystemRoleFixed);
      }
      tables := tables.(roles := tables.roles - {id}, assignments := WithoutRole(tables.assignments, id));
      r := Ok(());
    }
  }

  function Edited(role: Role, name: Option<string>, permissions: Option<seq<string>>): Role {
    var renamed := if name.Some? then role.(name := name.value) else role;
    if permissions.Some? then renamed.(permissions := permissions.value) else renamed
  }

  /** Another role than the excepted one already carries this workspace, name and scope, so one more would not be unique. */
  predicate Taken(t: Tables, workspace: Id, name: string, scope: Scope, except: Option<Id>): (b: bool)
    ensures b <==> !forall r :: r in t.roles && Some(r) != except ==> !SameKey(t.roles[r], Role(workspace, name, scope, [], false))
  {
    exists r :: r in t.roles && Some(r) != except
                && t.roles[r].workspace == workspace && t.roles[r].name == name && t.roles[r].scope == scope
  }

  lemma EditKeepsFit(t: Tables, id: Id, edited: Role)
    requires id in t.roles && edited.workspace == t.roles[id].workspace && edited.scope == t.roles[id].scope
    ensures forall a :: Fits(t, a) ==> Fits(t.(roles := t.roles[id := edited]), a)
  {
  }

  // ---------------------------------------------------------------------------
  // What the changes mean
  // ---------------------------------------------------------------------------

  /** A new assignment grants exactly its role's catalogued permissions, to its user, in its workspace, at its site. */
  lemma AssignmentGrants(t: Tables, a: Assignment, user: Id, p: string, workspace: Id, site: Option<Id>)
    requires Fits(t, a)
    ensures Holds(t.(assignments := t.assignments + [a]), user, p, workspace, site)
       <==> || Holds(t, user, p, workspace, site)
            || (IsPermission(p) && p in t.roles[a.role].permissions && Reaches(a, site)
                && t.memberships[a.membership] == Membership(user, workspace))
  {
    var t' := t.(assignments := t.assignments + [a]);
    GrantedInMore(t, t.assignments, a, user, p, workspace, site);
    GrantedAlike(t, t', user, p, workspace, site);
    assert t.memberships[a.membership] == Membership(user, workspace) ==> user in t.users && t.users[user].None?;
  }

  lemma GrantedAlike(t: Tables, t': Tables, user: Id, p: string, workspace: Id, site: Option<Id>)
    requires t' == t.(assignments := t'.assignments)
    ensures GrantedIn(t, t'.assignments, user, p, workspace, site) <==> Granted(t', user, p, workspace, site)
  {
    assert forall a :: Grants(t, a, user, workspace, p) == Grants(t', a, user, workspace, p);
  }

  /** Removing a role takes away exactly what was held through it alone. */
  lemma RemovedRoleGrantsNothing(t: Tables, role: Id, user: Id, p: string, workspace: Id, site: Option<Id>)
    ensures var t' := t.(roles := t.roles - {role}, assignments := WithoutRole(t.assignments, role));
            Granted(t', user, p, workspace, site) <==>
            exists a :: a in t.assignments && a.role != role && Grants(t, a, user, workspace, p) && Reaches(a, site)
  {
    var t' := t.(roles := t.roles - {role}, assignments := WithoutRole(t.assignments, role));
    KeepSpec(t.assignments, (a: Assignment) => a.role != role);
    assert forall a: Assignment :: a.role != role ==> Grants(t, a, user, workspace, p) == Grants(t', a, user, workspace, p);
    if exists a :: a in t.assignments && a.role != role && Grants(t, a, user, workspace, p) && Reaches(a, site) {
      var a :| a in t.assignments && a.role != role && Grants(t, a, user, workspace, p) && Reaches(a, site);
      assert a in t'.assignments && Grants(t', a, user, workspace, p);
    }
  }

  ghost predicate OwnsThrough(t: Tables, a: Assignment, user: Id, workspace: Id) {
    && a in t.assignments && Fits(t, a)
    && t.memberships[a.membership] == Membership(user, workspace)
    && t.roles[a.role].isSystem && t.roles[a.role].workspace == workspace
  }

  /** Ownership comes only from a system role of the same workspace, never from code and never to staff. */
  lemma OwnersHoldSystemRoles(t: Tables, user: Id, workspace: Id, site: Option<Id>)
    requires Consistent(t) && Holds(t, user, OWNER_PERMISSION, workspace, site)
    ensures t.users[user].None? && exists a :: OwnsThrough(t, a, user, workspace)
  {
    StaffNeverOwn();
    var a :| a in t.assignments && Grants(t, a, user, workspace, OWNER_PERMISSION) && Reaches(a, site);
    assert Fits(t, a) && WellFormed(t.roles[a.role]);
    assert OwnsThrough(t, a, user, workspace);
  }

  lemma StaffNeverOwn()
    ensures forall role :: !StaffHolds(role, OWNER_PERMISSION)
  {
    assert OWNER_PERMISSION[|OWNER_PERMISSION| - 1] != ":read"[4];
  }

  /** In consistent tables a list of sites never leaves the workspace it was asked for. */
  lemma ListedSitesBelong(t: Tables, user: Id, p: string, workspace: Id, site: Id)
    requires Consistent(t)
    requires AccessibleSites(t, user, p, workspace).Only? && site in AccessibleSites(t, user, p, workspace).sites
    ensures site in t.sites && t.sites[site] == workspace
  {
    var a := SiteComesFrom(t, t.assignments, user, p, workspace, site);
    assert Fits(t, a);
  }

  lemma {:induction false} SiteComesFrom(t: Tables, assignments: seq<Assignment>, user: Id, p: string, workspace: Id, site: Id)
    returns (a: Assignment)
    requires GrantedAccess(t, assignments, user, p, workspace).Only?
    requires site in GrantedAccess(t, assignments, user, p, workspace).sites
    ensures a in assignments && Grants(t, a, user, workspace, p) && a.site == Some(site)
  {
    var n := |assignments| - 1;
    a := assignments[n];
    if !(Grants(t, a, user, workspace, p) && a.site == Some(site)) {
      a := SiteComesFrom(t, assignments[..n], user, p, workspace, site);
    }
  }

  // ---------------------------------------------------------------------------
  // Whole runs
  // ---------------------------------------------------------------------------

  /** In consistent tables no role lists an uncatalogued string, and check and list agree on every string. */
  lemma ConsistentAgreement(t: Tables, user: Id, p: string, workspace: Id, site: Option<Id>)
    requires Consistent(t)
    ensures Holds(t, user, p, workspace, site) <==> Covers(AccessibleSites(t, user, p, workspace), site)
  {
    PermissionAgreement(t, user, p, workspace, site);
    AccessCoversGrants(t, t.assignments, user, p, workspace, site);
    forall a | a in t.assignments
      ensures Grants(t, a, user, workspace, p) ==> IsPermission(p)
    {
      assert Fits(t, a) && WellFormed(t.roles[a.role]);
    }
  }

  /** One call; an id is drawn for each new row. */
  datatype Op =
    | DoAssign(id: Id, user: Id, role: Id, site: Option<Id>)
    | DoUnassign(id: Id)
    | DoCreateRole(id: Id, workspace: Id, name: string, scope: Scope, permissions: seq<string>)
    | DoUpdateRole(id: Id, newName: Option<string>, newPermissions: Option<seq<string>>)
    | DoRemoveRole(id: Id)

  /** The system roles of the tables. */
  function SystemRoles(t: Tables): map<Id, Role> {
    map r | r in t.roles && t.roles[r].isSystem :: t.roles[r]
  }

  /** The calls change assignments and custom roles, and nothing else. */
  predicate SameGround(t: Tables, t': Tables) {
    && t'.users == t.users && t'.sites == t.sites && t'.memberships == t.memberships
    && SystemRoles(t') == SystemRoles(t)
  }

  /**
   * Any sequence of calls, refused or not, from consistent tables: the tables stay consistent,
   * the system roles, and with them the only source of ownership, are as they were, and the
   * check and the list of sites agree for everybody. A draw that repeats an id does not happen.
   */
  method Run(tables: Tables, ops: seq<Op>) returns (d: Directory)
    requires Consistent(tables)
    ensures fresh(d) && Consistent(d.tables) && SameGround(tables, d.tables)
    ensures forall user, p, workspace, site ::
              Holds(d.tables, user, p, workspace, site) <==> Covers(AccessibleSites(d.tables, user, p, workspace), site)
  {
    d := new Directory(tables);
    for k := 0 to |ops|
      invariant fresh(d) && d.Valid() && SameGround(tables, d.tables)
    {
      match ops[k] {
        case DoAssign(id, user, role, site) =>
          if !HasId(d.tables.assignments, id) {
            var r := d.Assign(id, user, role, site);
          }
        case DoUnassign(id) =>
          var r := d.Unassign(id);
        case DoCreateRole(id, workspace, name, scope, permissions) =>
          if id !in d.tables.roles {
            ghost var before := d.tables;
            var r := d.CreateRole(id, workspace, name, scope, permissions);
            CustomRoleAdded(before, id, Role(workspace, name, scope, permissions, false));
          }
        case DoUpdateRole(id, newName, newPermissions) =>
          ghost var before := d.tables;
          var r := d.UpdateRole(id, newName, newPermissions);
          if r.Ok? {
            CustomRoleAdded(before, id, Edited(before.roles[id], newName, newPermissions));
          }
        case DoRemoveRole(id) =>
          ghost var before := d.tables;
          var r := d.RemoveRole(id);
          if r.Ok? {
            CustomRoleRemoved(before, id);
          }
      }
    }
    forall user, p, workspace, site
      ensures Holds(d.tables, user, p, workspace, site) <==> Covers(AccessibleSites(d.tables, user, p, workspace), site)
    {
      ConsistentAgreement(d.tables, user, p, workspace, site);
    }
  }

  lemma CustomRoleAdded(t: Tables, id: Id, role: Role)
    requires !role.isSystem && (id in t.roles ==> !t.roles[id].isSystem)
    ensures SystemRoles(t.(roles := t.roles[id := role])) == SystemRoles(t)
  {
  }

  lemma CustomRoleRemoved(t: Tables, id: Id)
    requires id in t.roles ==> !t.roles[id].isSystem
    ensures SystemRoles(t.(roles := t.roles - {id}, assignments := WithoutRole(t.assignments, id))) == SystemRoles(t)
  {
  }
}
