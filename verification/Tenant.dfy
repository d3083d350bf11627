// gpustack/api/tenant.py: which principal a request acts as, what it may list,
// see, create and write.
module Tenant {
  import opened Text
  import opened Sql

  datatype Kind = UserKind | SystemKind | OrgKind | GroupKind

  datatype Role = Owner | Member

  datatype Principal = Principal(kind: Kind, deleted: bool)

  /** A membership row; its role may be NULL. */
  datatype Membership = Membership(parent: int, member: int, role: Option<Role>, deleted: bool)

  datatype Cluster = Cluster(owner: Option<int>, deleted: bool)

  datatype Access = Access(cluster: int, principal: int)

  /** The tables the resolution reads; authenticated is the id of the built-in
      group everybody is in. */
  datatype Db = Db(principals: map<int, Principal>, memberships: set<Membership>,
                   clusters: map<int, Cluster>, access: seq<Access>, authenticated: int)

  datatype Error = Invalid | Forbidden | NotFound

  datatype Result<T> = Ok(value: T) | Err(error: Error)

  // ------------------------------------------------------------ effective role

  predicate LiveGroup(db: Db, id: int) {
    id in db.principals && db.principals[id].kind == GroupKind && !db.principals[id].deleted
  }

  /** The two SELECTs, without the rows whose role is NULL. */
  function DirectRoles(db: Db, user: int, org: int): set<Role> {
    set m | m in db.memberships && m.parent == org && m.member == user && !m.deleted && m.role.Some? :: m.role.value
  }

  function GroupRoles(db: Db, user: int, org: int): set<Role> {
    set om, gm | om in db.memberships && gm in db.memberships
                 && gm.parent == om.member && LiveGroup(db, gm.parent)
                 && om.parent == org && !om.deleted && gm.member == user && !gm.deleted && om.role.Some?
                 :: om.role.value
  }

  /** _resolve_effective_org_role. */
  function EffectiveRole(db: Db, user: int, org: int): Option<Role> {
    var roles := DirectRoles(db, user, org) + GroupRoles(db, user, org);
    if roles == {} then None else if Owner in roles then Some(Owner) else Some(Member)
  }

  /** A way a user is in an Org. */
  datatype Path = Direct(m: Membership) | ViaGroup(om: Membership, gm: Membership)

  predicate LivePath(db: Db, p: Path, user: int, org: int) {
    match p
    case Direct(m) => m in db.memberships && !m.deleted && m.parent == org && m.member == user
    case ViaGroup(om, gm) =>
      && om in db.memberships && !om.deleted && om.parent == org
      && gm in db.memberships && !gm.deleted && gm.member == user
      && gm.parent == om.member && om.member in db.principals
      && db.principals[om.member].kind == GroupKind && !db.principals[om.member].deleted
  }

  /** The role comes from the row that joins the Org. */
  function Carries(p: Path): Option<Role> {
    match p
    case Direct(m) => m.role
    case ViaGroup(om, _) => om.role
  }

  ghost predicate HasPath(db: Db, user: int, org: int, role: Role) {
    exists p :: LivePath(db, p, user, org) && Carries(p) == Some(role)
  }

  lemma PathRoles(db: Db, user: int, org: int, role: Role)
    ensures HasPath(db, user, org, role) <==> role in DirectRoles(db, user, org) + GroupRoles(db, user, org)
  {
    if role in DirectRoles(db, user, org) {
      var m :| m in db.memberships && m.parent == org && m.member == user && !m.deleted && m.role == Some(role);
      assert LivePath(db, Direct(m), user, org);
    }
    if role in GroupRoles(db, user, org) {
      var om, gm :| om in db.memberships && gm in db.memberships && gm.parent == om.member && LiveGroup(db, gm.parent)
                    && om.parent == org && !om.deleted && gm.member == user && !gm.deleted && om.role == Some(role);
      assert LivePath(db, ViaGroup(om, gm), user, org);
    }
  }

  /** OWNER if some live path carries it, MEMBER if some live path carries a
      role but none carries OWNER, nothing if no live path carries a role. */
  lemma EffectiveRoleIs(db: Db, user: int, org: int)
    ensures EffectiveRole(db, user, org) == Some(Owner) <==> HasPath(db, user, org, Owner)
    ensures EffectiveRole(db, user, org) == Some(Member)
            <==> HasPath(db, user, org, Member) && !HasPath(db, user, org, Owner)
    ensures EffectiveRole(db, user, org) == None <==> forall p :: LivePath(db, p, user, org) ==> Carries(p) == None
  {
    PathRoles(db, user, org, Owner);
    PathRoles(db, user, org, Member);
    var roles := DirectRoles(db, user, org) + GroupRoles(db, user, org);
    forall r | r in roles ensures r in {Owner, Member} {
      match r case Owner => case Member =>
    }
    assert Owner !in roles && Member !in roles ==> roles == {};
    forall p | LivePath(db, p, user, org) && Carries(p).Some?
      ensures HasPath(db, user, org, Owner) || HasPath(db, user, org, Member)
    {
      var role := Carries(p).value;
      assert HasPath(db, user, org, role);
      match role case Owner => case Member =>
    }
  }

  function Rank(r: Option<Role>): nat {
    match r case None => 0 case Some(Member) => 1 case Some(Owner) => 2
  }

  /** More memberships never take a role away or lower it. */
  lemma RoleMonotone(db: Db, more: set<Membership>, user: int, org: int)
    ensures var db' := db.(memberships := db.memberships + more);
            Rank(EffectiveRole(db, user, org)) <= Rank(EffectiveRole(db', user, org))
  {
    var db' := db.(memberships := db.memberships + more);
    EffectiveRoleIs(db, user, org);
    EffectiveRoleIs(db', user, org);
    forall p | LivePath(db, p, user, org) ensures LivePath(db', p, user, org) {
    }
  }

  predicate Uses(p: Path, m: Membership) {
    match p
    case Direct(d) => d == m
    case ViaGroup(om, gm) => om == m || gm == m
  }

  /** Soft-deleting one row cuts exactly the paths over it. */
  lemma SoftDeleteCuts(db: Db, m: Membership, user: int, org: int, p: Path)
    requires m in db.memberships
    ensures var db' := db.(memberships := db.memberships - {m} + {m.(deleted := true)});
            LivePath(db', p, user, org) <==> LivePath(db, p, user, org) && (m.deleted || !Uses(p, m))
  {
  }

  // ------------------------------------------------------- accessible clusters

  /** _user_group_principal_ids. */
  function UserGroups(db: Db, user: int): set<int> {
    set m | m in db.memberships && m.member == user && !m.deleted && LiveGroup(db, m.parent) :: m.parent
  }

  /** The principals whose cluster_access grants the caller enjoys. */
  function Grantees(db: Db, user: int, org: Option<int>): set<int> {
    {user} + UserGroups(db, user) + {db.authenticated} + match org case None => {} case Some(o) => {o}
  }

  predicate Grants(db: Db, a: Access, ids: set<int>) {
    a.principal in ids && a.cluster in db.clusters && !db.clusters[a.cluster].deleted
  }

  function Accessible(db: Db, ids: set<int>): set<int> {
    set a | a in db.access && Grants(db, a, ids) :: a.cluster
  }

  function AccessibleOwners(db: Db, ids: set<int>): set<int> {
    set c | c in Accessible(db, ids) && db.clusters[c].owner.Some? :: db.clusters[c].owner.value
  }

  /** The join, in row order. */
  function AccessRows(db: Db, access: seq<Access>, ids: set<int>): seq<(int, Option<int>)> {
    if access == [] then []
    else
      var rest := AccessRows(db, access[1..], ids);
      if Grants(db, access[0], ids) then [(access[0].cluster, db.clusters[access[0].cluster].owner)] + rest else rest
  }

  lemma {:induction false} AccessRowsAre(db: Db, access: seq<Access>, ids: set<int>, row: (int, Option<int>))
    ensures row in AccessRows(db, access, ids)
            <==> exists a :: a in access && Grants(db, a, ids) && row == (a.cluster, db.clusters[a.cluster].owner)
  {
    if access != [] {
      AccessRowsAre(db, access[1..], ids, row);
      assert access == [access[0]] + access[1..];
    }
  }

  /** _accessible_clusters: the two sets filled row by row. */
  method AccessibleClusters(db: Db, user: int, org: Option<int>) returns (clusters: set<int>, owners: set<int>)
    ensures clusters == Accessible(db, Grantees(db, user, org))
    ensures owners == AccessibleOwners(db, Grantees(db, user, org))
  {
    var ids := Grantees(db, user, org);
    var rows := AccessRows(db, db.access, ids);
    clusters, owners := {}, {};
    var i := 0;
    while i < |rows|
      invariant 0 <= i <= |rows|
      invariant forall c :: c in clusters <==> exists k :: 0 <= k < i && rows[k].0 == c
      invariant forall o :: o in owners <==> exists k :: 0 <= k < i && rows[k].1 == Some(o)
    {
      clusters := clusters + {rows[i].0};
      if rows[i].1.Some? {
        owners := owners + {rows[i].1.value};
      }
      i := i + 1;
    }
    RowsCover(db, ids);
    assert forall c :: c in clusters <==> exists r :: r in rows && r.0 == c;
    assert forall o :: o in owners <==> exists r :: r in rows && r.1 == Some(o);
    assert forall o :: o in owners <==> o in AccessibleOwners(db, ids);
  }

  lemma RowsCover(db: Db, ids: set<int>)
    ensures var rows := AccessRows(db, db.access, ids);
            && (forall c :: c in Accessible(db, ids) <==> exists r :: r in rows && r.0 == c)
            && (forall o :: o in AccessibleOwners(db, ids) <==> exists r :: r in rows && r.1 == Some(o))
  {
    var rows := AccessRows(db, db.access, ids);
    forall r ensures r in rows <==> r.0 in Accessible(db, ids) && r.1 == db.clusters[r.0].owner {
      AccessRowsAre(db, db.access, ids, r);
    }
    forall c | c in Accessible(db, ids) ensures (c, db.clusters[c].owner) in rows {
    }
  }

  // ---------------------------------------------------------------- resolution

  /** The row behind a service account: its cluster and that cluster's owner. */
  datatype Account = Account(cluster: Option<int>, owner: Option<int>)

  /** The authenticated principal, with the worker and the cluster that refer back
      to it as a service account. */
  datatype User = User(id: int, kind: Kind, admin: bool, worker: Option<Account>, cluster: Option<Account>)

  /** The cluster a service account is scoped to; its worker decides before its
      cluster does. */
  function Scope(user: User): Account {
    if user.kind != SystemKind then Account(None, None)
    else if user.worker.Some? then user.worker.value
    else user.cluster.GetOr(Account(None, None))
  }

  datatype Context = Context(user: User, admin: bool, current: Option<int>, role: Option<Role>,
                             clusters: set<int>, clusterOwners: set<int>, personal: bool,
                             scopedCluster: Option<int>, scopedOwner: Option<int>, workerGrants: set<int>)

  /** _resolve_requested_principal_id, with int() as a parameter. */
  function Requested(user: User, keyOwner: Option<int>, header: Option<string>, parse: string -> Option<int>):
    Result<Option<int>>
  {
    if keyOwner.Some? then Ok(keyOwner)
    else if header.Some? && header.value != "" then
      match parse(header.value)
      case None => Err(Invalid)
      case Some(n) => Ok(Some(n))
    else if user.admin then Ok(None)
    else Ok(Some(user.id))
  }

  predicate LiveOrg(db: Db, id: int) {
    id in db.principals && !db.principals[id].deleted && db.principals[id].kind == OrgKind
  }

  /** What a request may end up as: the platform view of an administrator, the
      user's own scope, or a live Org in which anyone but an administrator has
      a role; never less clusters than in the own scope. */
  ghost predicate Sound(db: Db, ctx: Context) {
    var u := ctx.user;
    && ctx.admin == u.admin
    && (ctx.personal <==> ctx.current == Some(u.id))
    && (match ctx.current
        case None => u.admin && ctx.role == None && ctx.clusters == {}
        case Some(c) =>
          && ctx.clusters == Accessible(db, Grantees(db, u.id, if ctx.personal then None else Some(c)))
          && Accessible(db, Grantees(db, u.id, None)) <= ctx.clusters
          && ctx.clusterOwners == AccessibleOwners(db, Grantees(db, u.id, if ctx.personal then None else Some(c)))
          && (ctx.personal ==> ctx.role == None)
          && (!ctx.personal ==>
                LiveOrg(db, c) && ctx.role == EffectiveRole(db, u.id, c) && (u.admin || ctx.role.Some?)))
  }

  /** A live cluster is accessible exactly over a grant to the user, to a live
      group the user is in, to everybody, or to the Org acted in. */
  lemma AccessibleIs(db: Db, user: int, org: Option<int>, c: int)
    ensures c in Accessible(db, Grantees(db, user, org)) <==>
            && c in db.clusters && !db.clusters[c].deleted
            && exists a :: a in db.access && a.cluster == c
                 && (a.principal == user || a.principal == db.authenticated || Some(a.principal) == org
                     || (a.principal in db.principals
                         && db.principals[a.principal].kind == GroupKind && !db.principals[a.principal].deleted
                         && exists m ::
                               m in db.memberships && !m.deleted && m.parent == a.principal && m.member == user))
  {
  }

  /** And the owners that go with the clusters are theirs. */
  lemma OwnersAre(db: Db, user: int, org: Option<int>, o: int)
    ensures o in AccessibleOwners(db, Grantees(db, user, org)) <==>
            exists c :: c in Accessible(db, Grantees(db, user, org)) && db.clusters[c].owner == Some(o)
  {
  }

  /** More grantees never reach fewer clusters. */
  lemma AccessGrows(db: Db, user: int, org: int)
    ensures Accessible(db, Grantees(db, user, None)) <= Accessible(db, Grantees(db, user, Some(org)))
  {
  }

  /** The request state the result is kept in. */
  class Request {
    const keyOwner: Option<int>
    var tenantContext: Option<Context>

    constructor (keyOwner: Option<int>)
      ensures this.keyOwner == keyOwner && tenantContext == None
    {
      this.keyOwner := keyOwner;
      tenantContext := None;
    }

    /** resolve_tenant_context. */
    method Resolve(db: Db, user: User, header: Option<string>, parse: string -> Option<int>)
      returns (r: Result<Context>)
      modifies this
      ensures old(tenantContext).Some? ==> r == Ok(old(tenantContext).value)
      ensures tenantContext == if r.Ok? then Some(r.value) else None
      ensures old(tenantContext) == None && r.Ok? ==>
                && r.value.user == user && Ok(r.value.current) == Requested(user, keyOwner, header, parse)
                && (user.kind != SystemKind ==> Sound(db, r.value))
                && (user.kind == SystemKind ==> r.value.clusters == {} && r.value.role == None && !r.value.personal)
                && Account(r.value.scopedCluster, r.value.scopedOwner) == Scope(user)
                && r.value.workerGrants == {}
      ensures old(tenantContext) == None && r.Ok? ==>
                && (keyOwner.Some? ==> r.value.current == keyOwner)
                && (keyOwner.None? && header in {None, Some("")} ==>
                      r.value.current == if user.admin then None else Some(user.id))
                && (keyOwner.None? && header !in {None, Some("")} ==>
                      parse(header.value).Some? && r.value.current == parse(header.value))
                && (r.value.current == None ==> user.admin)
                && var account := if user.kind != SystemKind then None
                                  else if user.worker.Some? then user.worker else user.cluster;
                   && r.value.scopedCluster == (match account case None => None case Some(a) => a.cluster)
                   && r.value.scopedOwner == match account case None => None case Some(a) => a.owner
      ensures old(tenantContext) == None && keyOwner.None? && header !in {None, Some("")} && parse(header.value).None?
              ==> r == Err(Invalid)
      ensures old(tenantContext) == None && r == Err(NotFound) ==>
                forall o :: Requested(user, keyOwner, header, parse) == Ok(Some(o)) ==>
                  o !in db.principals || db.principals[o].deleted || db.principals[o].kind != OrgKind
      ensures old(tenantContext) == None && r.Ok? && user.kind != SystemKind
              && r.value.current !in {None, Some(user.id)} ==>
                  var o := r.value.current.value;
                  o in db.principals && !db.principals[o].deleted && db.principals[o].kind == OrgKind
      ensures old(tenantContext) == None && r.Err? ==>
                match Requested(user, keyOwner, header, parse)
                case Err(e) => r.error == e
                case Ok(None) => false
                case Ok(Some(c)) =>
                  && user.kind != SystemKind && c != user.id
                  && (r.error == Forbidden <==> EffectiveRole(db, user.id, c) == None && !user.admin)
                  && (r.error == NotFound <==> r.error != Forbidden && !LiveOrg(db, c))
    {
      if tenantContext.Some? {
        return Ok(tenantContext.value);
      }
      var current;
      match Requested(user, keyOwner, header, parse) {
        case Err(e) => return Err(e);
        case Ok(c) => current := c;
      }
      var role, clusters, owners, personal := None, {}, {}, false;
      if current.Some? && user.kind != SystemKind {
        if current.value == user.id {
          personal := true;
          clusters, owners := AccessibleClusters(db, user.id, None);
        } else {
          role := EffectiveRole(db, user.id, current.value);
          if role == None && !user.admin {
            return Err(Forbidden);
          }
          clusters, owners := AccessibleClusters(db, user.id, Some(current.value));
          AccessGrows(db, user.id, current.value);
          if !LiveOrg(db, current.value) {
            return Err(NotFound);
          }
        }
      }
      var scopedCluster, scopedOwner := None, None;
      if user.kind == SystemKind {
        if user.worker.Some? {
          scopedCluster, scopedOwner := user.worker.value.cluster, user.worker.value.owner;
        } else if user.cluster.Some? {
          scopedCluster, scopedOwner := user.cluster.value.cluster, user.cluster.value.owner;
        }
      }
      var ctx := Context(user, user.admin, current, role, clusters, owners, personal, scopedCluster, scopedOwner, {});
      tenantContext := Some(ctx);
      r := Ok(ctx);
    }
  }

  // ---------------------------------------------------------- lists against rows

  /** A row as the checks see it: attributes a model does not have are None.
      isWorker marks rows of the Worker table. */
  datatype Row = Row(id: int, owner: Option<Option<int>>, cluster: Option<Option<int>>,
                       isWorker: bool, workerId: Option<int>)

  /** getattr(resource, "owner_principal_id", None). */
  function OwnerOf(row: Row): Option<int> {
    row.owner.GetOr(None)
  }

  /** WHERE conditions over one table's columns. */
  datatype Column = OwnerColumn | ClusterColumn | IdColumn

  datatype Condition =
    | Equals(column: Column, value: int)
    | IsNull(column: Column)
    | In(column: Column, values: set<int>)
    | Or(first: Condition, second: Condition)

  function Cell(row: Row, c: Column): Option<int> {
    match c
    case OwnerColumn => OwnerOf(row)
    case ClusterColumn => row.cluster.GetOr(None)
    case IdColumn => Some(row.id)
  }

  function Eval(cond: Condition, row: Row): Truth {
    match cond
    case Equals(c, v) => Equal(Cell(row, c), v)
    case IsNull(c) => Null(Cell(row, c))
    case In(c, vs) => Among(Cell(row, c), vs)
    case Or(a, b) => Either(Eval(a, row), Eval(b, row))
  }

  /** A query lists the rows of which all its conditions are true. */
  predicate Listed(conds: seq<Condition>, row: Row) {
    forall c :: c in conds ==> Eval(c, row) == True
  }

  lemma ListedOne(c: Condition, row: Row)
    ensures Listed([c], row) <==> Eval(c, row) == True
  {
    assert c in [c];
  }

  predicate Bypass(ctx: Context) {
    ctx.user.kind == SystemKind || (ctx.admin && ctx.current == None)
  }

  predicate ClusterScoped(ctx: Context) {
    ctx.user.kind == SystemKind && ctx.scopedCluster.Some?
  }

  /** tenant_list_conditions, for a table with the columns of the row. */
  function ListConditions(ctx: Context, row: Row): seq<Condition> {
    if ClusterScoped(ctx) then
      if row.cluster == None then []
      else [Or(Equals(ClusterColumn, ctx.scopedCluster.value), IsNull(ClusterColumn))]
    else if Bypass(ctx) then []
    else if ctx.current.Some? && row.owner.Some? then [Equals(OwnerColumn, ctx.current.value)]
    else []
  }

  /** assert_resource_visible on an existing row. */
  predicate Visible(ctx: Context, row: Row) {
    if ClusterScoped(ctx) then
        row.cluster == None || row.cluster.value == None || row.cluster.value == ctx.scopedCluster
    else if Bypass(ctx) then true
    else if ctx.current.Some? && OwnerOf(row).Some? && OwnerOf(row) != ctx.current then
      row.workerId == None && row.isWorker && row.id in ctx.workerGrants
    else true
  }

  /** Everything in a list can be fetched; and what can be fetched without being
      in a list is exactly a row without an owner, or a granted worker of another
      owner, seen from a tenant's context. */
  lemma ListedAgainstVisible(ctx: Context, row: Row)
    ensures Listed(ListConditions(ctx, row), row) ==> Visible(ctx, row)
    ensures Visible(ctx, row) && !Listed(ListConditions(ctx, row), row) <==>
            && !Bypass(ctx) && ctx.current.Some? && row.owner.Some?
            && (OwnerOf(row) == None
                || (OwnerOf(row) != ctx.current && row.isWorker && row.workerId == None && row.id in ctx.workerGrants))
  {
    var conds := ListConditions(ctx, row);
    if conds != [] {
      ListedOne(conds[0], row);
    }
  }

  /** Who finds what, told without the conditions. A service account bound to a
      cluster finds the rows of that cluster, of none, and those that have no
      cluster; another service account finds everything. A user acting as somebody
      finds what that principal owns and what has no owner column; rows that
      nobody owns and granted workers he only finds one by one. */
  lemma FoundAre(ctx: Context, row: Row)
    ensures ctx.user.kind == SystemKind ==>
              && (Listed(ListConditions(ctx, row), row) <==>
                    ctx.scopedCluster.None? || row.cluster in {None, Some(None), Some(ctx.scopedCluster)})
              && (Visible(ctx, row) <==>
                    ctx.scopedCluster.None? || row.cluster in {None, Some(None), Some(ctx.scopedCluster)})
    ensures ctx.user.kind != SystemKind ==>
              && (Listed(ListConditions(ctx, row), row) <==>
                    ctx.current.None? || row.owner in {None, Some(ctx.current)})
              && (Visible(ctx, row) <==>
                    || ctx.current.None? || row.owner in {None, Some(None), Some(ctx.current)}
                    || (row.isWorker && row.workerId.None? && row.id in ctx.workerGrants))
  {
    ListedAgainstVisible(ctx, row);
  }

  /** cluster_visibility_conditions. */
  function ClusterConditions(ctx: Context): seq<Condition> {
    if ClusterScoped(ctx) then [Equals(IdColumn, ctx.scopedCluster.value)]
    else if Bypass(ctx) then []
    else if ctx.current.Some? && ctx.clusters != {} then
      [Or(Equals(OwnerColumn, ctx.current.value), In(IdColumn, ctx.clusters))]
    else if ctx.current.Some? then [Equals(OwnerColumn, ctx.current.value)]
    else if ctx.clusters != {} then [In(IdColumn, ctx.clusters)]
    else [Equals(IdColumn, -1)]
  }

  /** assert_cluster_visible on an existing cluster. */
  predicate ClusterVisible(ctx: Context, row: Row) {
    if ClusterScoped(ctx) then Some(row.id) == ctx.scopedCluster
    else if Bypass(ctx) then true
    else (ctx.current.Some? && OwnerOf(row) == ctx.current) || row.id in ctx.clusters
  }

  /** For clusters the list and the row check agree, but for a cluster numbered
      -1 seen from a context that can see nothing. */
  lemma ClusterListIsVisible(ctx: Context, row: Row)
    ensures (Listed(ClusterConditions(ctx), row) <==> ClusterVisible(ctx, row))
            <==> !(row.id == -1 && !Bypass(ctx) && ctx.current == None && ctx.clusters == {})
  {
    var conds := ClusterConditions(ctx);
    if conds != [] {
      ListedOne(conds[0], row);
    }
  }

  /** Who finds which cluster: a bound service account its own, another one and an
      administrator's platform view all, anyone else what he acts as owns and what
      he has access to. */
  lemma ClustersFoundAre(ctx: Context, row: Row)
    ensures ClusterVisible(ctx, row) <==>
            if ctx.user.kind == SystemKind then ctx.scopedCluster in {None, Some(row.id)}
            else
              || (ctx.admin && ctx.current.None?)
              || (ctx.current.Some? && row.owner == Some(ctx.current)) || row.id in ctx.clusters
  {
  }

  // ----------------------------------------------------------- create and write

  /** validate_owner_principal. */
  function CreateGate(ctx: Context, owner: Option<int>, allowMember: bool): Option<Error> {
    if ctx.admin then None
    else if owner == None then Some(Invalid)
    else if ctx.current == None || owner != ctx.current then Some(Invalid)
    else if allowMember then None
    else if ctx.personal || ctx.role != Some(Owner) then Some(Invalid)
    else None
  }

  /** assert_org_owned_writable. */
  function WriteGate(ctx: Context, row: Row, allowMember: bool): Option<Error> {
    if Bypass(ctx) then None
    else if OwnerOf(row) == None then Some(Forbidden)
    else if OwnerOf(row) != ctx.current then Some(Forbidden)
    else if ctx.admin || allowMember then None
    else if ctx.personal || ctx.role != Some(Owner) then Some(Forbidden)
    else None
  }

  /** Who may write and who may create, and which error it is otherwise. */
  lemma GatesAre(ctx: Context, row: Row, allowMember: bool)
    ensures var mine := ctx.current.Some? && row.owner == Some(ctx.current);
            var enough := allowMember || (!ctx.personal && ctx.role == Some(Owner));
            && WriteGate(ctx, row, allowMember)
               == (if ctx.user.kind == SystemKind || (ctx.admin && ctx.current.None?) || (mine && (ctx.admin || enough))
                   then None else Some(Forbidden))
            && CreateGate(ctx, row.owner.GetOr(None), allowMember)
               == if ctx.admin || (mine && enough) then None else Some(Invalid)
  {
  }

  /** Outside service accounts, whoever may write a row may also have created
      it; the converse fails exactly for an administrator acting as a principal
      that does not own the row. */
  lemma CreateAgainstWrite(ctx: Context, row: Row, allowMember: bool)
    requires ctx.user.kind != SystemKind
    ensures WriteGate(ctx, row, allowMember) == None ==> CreateGate(ctx, OwnerOf(row), allowMember) == None
    ensures CreateGate(ctx, OwnerOf(row), allowMember) == None && WriteGate(ctx, row, allowMember) != None
            <==> ctx.admin && ctx.current.Some? && OwnerOf(row) != ctx.current
  {
  }

  /** Whoever may write a row, or anyone but an administrator may create it, sees
      it, in the list and on its own. */
  lemma WritableIsListed(ctx: Context, row: Row, allowMember: bool)
    requires ctx.user.kind != SystemKind
    requires || WriteGate(ctx, row, allowMember) == None
             || (!ctx.admin && CreateGate(ctx, OwnerOf(row), allowMember) == None)
    ensures Listed(ListConditions(ctx, row), row) && Visible(ctx, row)
  {
    ListedAgainstVisible(ctx, row);
  }

  /** From the membership tables to the write gate: in a resolved context anyone
      but an administrator writes infrastructure rows exactly of an Org he acts
      in and has an OWNER path into, and workload rows exactly of the principal
      he acts as; and acting there he is in it. */
  lemma WritesFollowMemberships(db: Db, ctx: Context, row: Row)
    requires Sound(db, ctx) && ctx.user.kind != SystemKind && !ctx.user.admin
    ensures WriteGate(ctx, row, false) == None <==>
            && OwnerOf(row).Some? && OwnerOf(row) == ctx.current && ctx.current != Some(ctx.user.id)
            && HasPath(db, ctx.user.id, ctx.current.value, Owner)
    ensures WriteGate(ctx, row, true) == None <==> OwnerOf(row).Some? && OwnerOf(row) == ctx.current
    ensures WriteGate(ctx, row, true) == None && !ctx.personal ==>
              exists p :: LivePath(db, p, ctx.user.id, OwnerOf(row).value)
  {
    if !ctx.personal {
      EffectiveRoleIs(db, ctx.user.id, ctx.current.value);
    }
  }
}
