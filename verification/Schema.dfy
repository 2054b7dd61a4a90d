/** The in-place schema upgrade that runs at every start (app/db/session.py). A database is the
    columns of each table plus the rows the upgrade touches; what a row holds in a column its
    table does not have yet is without meaning and is overwritten when the column is added. */
module Schema {
  import opened Text

  datatype Tenant = Tenant(
    id: string, slug: string, isActive: bool,
    status: string, platformScope: bool, planId: Option<string>, signupIp: Option<string>)

  datatype Admin = Admin(id: string, email: string, createdAt: int, tenantId: Option<string>, role: string)

  datatype PlanRow = PlanRow(id: string, key: string)

  datatype Resource = Resource(kind: string, cpu: Option<int>, mem: Option<int>, disk: Option<int>)

  datatype Db = Db(
    columns: map<string, set<string>>,
    tenants: seq<Tenant>, admins: seq<Admin>, plans: seq<PlanRow>, resources: seq<Resource>)

  /** Settings and the new UUIDs. */
  datatype Settings = Settings(bootstrapEmail: string, cpu: int, mem: int, disk: int)

  datatype NewIds = NewIds(tenantId: string, planId: string -> string)

  // ------------------------------------------------------------ statements

  predicate HasTable(db: Db, table: string) { table in db.columns }

  predicate HasColumn(db: Db, table: string, column: string) {
    table in db.columns && column in db.columns[table]
  }

  /** Every row of a table, updated. */
  function UpdateAll<T>(rows: seq<T>, f: T -> T): (r: seq<T>)
    ensures |r| == |rows| && forall i :: 0 <= i < |rows| ==> r[i] == f(rows[i])
  {
    seq(|rows|, i requires 0 <= i < |rows| => f(rows[i]))
  }

  function NoteColumn(db: Db, table: string, column: string): Db
    requires HasTable(db, table)
  {
    db.(columns := db.columns[table := db.columns[table] + {column}])
  }

  function AddTenantColumns(db: Db): Db
    requires HasTable(db, "tenants")
  {
    var a := if HasColumn(db, "tenants", "status") then db else
      NoteColumn(db, "tenants", "status").(tenants := UpdateAll(db.tenants, (t: Tenant) => t.(status := "active")));
    if HasColumn(a, "tenants", "is_platform_scope") then a else
      NoteColumn(a, "tenants", "is_platform_scope")
      .(tenants := UpdateAll(a.tenants, (t: Tenant) => t.(platformScope := false)))
  }

  function AddAdminTenant(db: Db): Db
    requires HasTable(db, "admin_users")
  {
    if HasColumn(db, "admin_users", "tenant_id") then db else
      NoteColumn(db, "admin_users", "tenant_id").(admins := UpdateAll(db.admins, (a: Admin) => a.(tenantId := None)))
  }

  function AddPlanColumns(db: Db): Db
    requires HasTable(db, "tenants")
  {
    var a := if HasColumn(db, "tenants", "plan_id") then db else
      NoteColumn(db, "tenants", "plan_id").(tenants := UpdateAll(db.tenants, (t: Tenant) => t.(planId := None)));
    if HasColumn(a, "tenants", "signup_ip") then a else
      NoteColumn(a, "tenants", "signup_ip").(tenants := UpdateAll(a.tenants, (t: Tenant) => t.(signupIp := None)))
  }

  function AddRole(db: Db): Db
    requires HasTable(db, "admin_users")
  {
    if HasColumn(db, "admin_users", "role") then db else
      NoteColumn(db, "admin_users", "role").(admins := UpdateAll(db.admins, (a: Admin) => a.(role := "owner")))
  }

  predicate HasPlan(plans: seq<PlanRow>, key: string) {
    exists i :: 0 <= i < |plans| && plans[i].key == key
  }

  function SeedPlan(plans: seq<PlanRow>, key: string, ids: NewIds): seq<PlanRow> {
    if HasPlan(plans, key) then plans else plans + [PlanRow(ids.planId(key), key)]
  }

  function SeedPlans(plans: seq<PlanRow>, ids: NewIds): seq<PlanRow> {
    SeedPlan(SeedPlan(SeedPlan(plans, "free", ids), "pro", ids), "business", ids)
  }

  /** A column with a constant default on a table whose rows are not modelled. */
  function AddOther(db: Db, table: string, column: string): Db {
    if HasTable(db, table) && !HasColumn(db, table, column) then NoteColumn(db, table, column) else db
  }

  function BackfillResource(r: Resource, s: Settings): Resource {
    if r.kind == "app" && r.cpu.None? then r.(cpu := Some(s.cpu), mem := Some(s.mem), disk := Some(s.disk)) else r
  }

  /** One of the columns, added if it is missing. */
  function WithResourceColumn(db: Db, column: string, f: Resource -> Resource): Db
    requires HasTable(db, "tenant_resources")
  {
    if HasColumn(db, "tenant_resources", column) then db
    else NoteColumn(db, "tenant_resources", column).(resources := UpdateAll(db.resources, f))
  }

  function AddResourceColumns(db: Db): Db
    requires HasTable(db, "tenant_resources")
  {
    var a := WithResourceColumn(db, "cpu_millicores", (r: Resource) => r.(cpu := None));
    var b := WithResourceColumn(a, "mem_mb", (r: Resource) => r.(mem := None));
    WithResourceColumn(b, "disk_mb", (r: Resource) => r.(disk := None))
  }

  /** `_backfill_task31` */
  function BackfillResources(db: Db, s: Settings): Db {
    db.(resources := UpdateAll(db.resources, (r: Resource) => BackfillResource(r, s)))
  }

  predicate Orphan(a: Admin) {
    a.tenantId.None? || a.tenantId.value == ""
  }

  predicate AnyOrphan(admins: seq<Admin>) {
    exists i :: 0 <= i < |admins| && Orphan(admins[i])
  }

  const PlatformAdmin := "platform_admin"

  /** The first tenant, created when there is none, takes over all orphaned admins. */
  function AdoptOrphans(db: Db, ids: NewIds): Db {
    var tenants := if db.tenants != [] then db.tenants
                   else [Tenant(ids.tenantId, "cloud-industry", true, "active", true, None, None)];
    var home := tenants[0].id;
    db.(tenants := tenants,
        admins := UpdateAll(db.admins, (a: Admin) => if Orphan(a) then a.(tenantId := Some(home)) else a))
  }

  // ------------------------------------------------------------ _backfill_task14

  function SuspendInactive(t: Tenant, legacy: bool): Tenant {
    if legacy && !t.isActive && t.status == "active" then t.(status := "suspended") else t
  }

  function FreePlanId(plans: seq<PlanRow>): Option<string> {
    if plans == [] then None
    else if plans[0].key == "free" then Some(plans[0].id)
    else FreePlanId(plans[1..])
  }

  function BackfillTenant(t: Tenant, legacy: bool, free: Option<string>): Tenant {
    var a := SuspendInactive(t, legacy);
    var b := if a.slug == "default" then a.(platformScope := true) else a;
    if b.planId.None? then b.(planId := free) else b
  }

  function PromoteBootstrap(a: Admin, s: Settings): Admin {
    if Lower(a.email) == Lower(Strip(s.bootstrapEmail)) then a.(role := PlatformAdmin) else a
  }

  predicate AnyPlatformAdmin(admins: seq<Admin>) {
    exists i :: 0 <= i < |admins| && admins[i].role == PlatformAdmin
  }

  /** The admin created first; on a tie any one will do, here the first listed. */
  function Oldest(admins: seq<Admin>): (a: Admin)
    requires admins != []
    ensures a in admins && forall i :: 0 <= i < |admins| ==> a.createdAt <= admins[i].createdAt
  {
    if |admins| == 1 then admins[0]
    else
      var rest := Oldest(admins[1..]);
      if admins[0].createdAt <= rest.createdAt then admins[0] else rest
  }

  function PromoteOldest(admins: seq<Admin>): seq<Admin> {
    if AnyPlatformAdmin(admins) || admins == [] then admins
    else
      var id := Oldest(admins).id;
      UpdateAll(admins, (a: Admin) => if a.id == id then a.(role := PlatformAdmin) else a)
  }

  predicate HomeOfPlatformAdmin(id: string, admins: seq<Admin>) {
    exists i :: 0 <= i < |admins| && admins[i].role == PlatformAdmin && admins[i].tenantId == Some(id)
  }

  function ScopeTenant(t: Tenant, admins: seq<Admin>): Tenant {
    if HomeOfPlatformAdmin(t.id, admins) then t.(platformScope := true) else t
  }

  function Backfill(db: Db, s: Settings): Db {
    var legacy, free := HasColumn(db, "tenants", "is_active"), FreePlanId(db.plans);
    var tenants := UpdateAll(db.tenants, (t: Tenant) => BackfillTenant(t, legacy, free));
    var admins := PromoteOldest(UpdateAll(db.admins, (a: Admin) => PromoteBootstrap(a, s)));
    db.(tenants := UpdateAll(tenants, (t: Tenant) => ScopeTenant(t, admins)), admins := admins)
  }

  // ------------------------------------------------------------ the whole upgrade

  /** Columns, plans and resources: everything before the admins are looked at. */
  function Prepare(db: Db, s: Settings, ids: NewIds): Db
    requires HasTable(db, "tenants") && HasTable(db, "admin_users")
  {
    PrepareResources(AddOthers(Seed(AddAccountColumns(db), ids)), s)
  }

  function AddAccountColumns(db: Db): Db
    requires HasTable(db, "tenants") && HasTable(db, "admin_users")
  {
    AddRole(AddPlanColumns(AddAdminTenant(AddTenantColumns(db))))
  }

  function Seed(db: Db, ids: NewIds): Db {
    if HasTable(db, "plans") then db.(plans := SeedPlans(db.plans, ids)) else db
  }

  function AddOthers(db: Db): Db {
    AddOther(AddOther(db, "domains", "cf_hostname_id"), "deploy_hooks", "previews")
  }

  function PrepareResources(db: Db, s: Settings): Db {
    if HasTable(db, "tenant_resources") then BackfillResources(AddResourceColumns(db), s) else db
  }

  /** `_upgrade_existing_schema`; None where a statement fails because there is no plans table. */
  function Upgrade(db: Db, s: Settings, ids: NewIds): Option<Db> {
    if !HasTable(db, "tenants") || !HasTable(db, "admin_users") then Some(db)
    else if !HasTable(db, "plans") then None
    else
      var prepared := Prepare(db, s, ids);
      var adopted :=
        if !HasColumn(db, "admin_users", "tenant_id") && AnyOrphan(prepared.admins)
        then AdoptOrphans(prepared, ids) else prepared;
      Some(Backfill(adopted, s))
  }

  /** The connection's transaction: statements take effect one after the other, and a failing
      one rolls all of them back. */
  class Connection {
    var db: Db

    constructor (db: Db)
      ensures this.db == db
    {
      this.db := db;
    }

    method UpgradeExistingSchema(s: Settings, ids: NewIds) returns (ok: bool)
      modifies this
      ensures ok <==> Upgrade(old(db), s, ids).Some?
      ensures db == if ok then Upgrade(old(db), s, ids).value else old(db)
    {
      var saved := db;
      if !HasTable(db, "tenants") || !HasTable(db, "admin_users") {
        return true;
      }
      var addedTenantId := !HasColumn(db, "admin_users", "tenant_id");
      AddColumnsAndSeed(s, ids);
      PrepareKeepsTables(saved, s, ids);
      if addedTenantId && AnyOrphan(db.admins) {
        db := AdoptOrphans(db, ids);
      }
      if !HasTable(db, "plans") {
        db := saved;
        return false;
      }
      db := Backfill(db, s);
      return true;
    }

    method AddColumnsAndSeed(s: Settings, ids: NewIds)
      requires HasTable(db, "tenants") && HasTable(db, "admin_users")
      modifies this
      ensures db == Prepare(old(db), s, ids)
    {
      db := AddTenantColumns(db);
      db := AddAdminTenant(db);
      db := AddPlanColumns(db);
      db := AddRole(db);
      assert db == AddAccountColumns(old(db));
      if HasTable(db, "plans") {
        db := db.(plans := SeedPlans(db.plans, ids));
      }
      db := AddOther(db, "domains", "cf_hostname_id");
      db := AddOther(db, "deploy_hooks", "previews");
      if HasTable(db, "tenant_resources") {
        db := AddResourceColumns(db);
        db := BackfillResources(db, s);
      }
    }
  }

  // ------------------------------------------------------------ what the upgrade establishes

  ghost predicate PlansSeeded(db: Db) {
    HasPlan(db.plans, "free") && HasPlan(db.plans, "pro") && HasPlan(db.plans, "business")
  }

  lemma {:induction false} FreePlanFound(plans: seq<PlanRow>)
    requires HasPlan(plans, "free")
    ensures FreePlanId(plans).Some?
  {
    if plans[0].key != "free" {
      var i :| 0 <= i < |plans| && plans[i].key == "free";
      assert plans[1..][i - 1].key == "free";
      FreePlanFound(plans[1..]);
    }
  }

  lemma SeedsAll(plans: seq<PlanRow>, ids: NewIds)
    ensures var seeded := SeedPlans(plans, ids);
            HasPlan(seeded, "free") && HasPlan(seeded, "pro") && HasPlan(seeded, "business") && plans <= seeded
  {
    var a := SeedPlan(plans, "free", ids);
    SeedsOne(plans, "free", ids);
    var b := SeedPlan(a, "pro", ids);
    SeedsOne(a, "pro", ids);
    SeedsOne(b, "business", ids);
    KeepsPlan(plans, a, "free");
    KeepsPlan(a, b, "free");
    KeepsPlan(b, SeedPlan(b, "business", ids), "free");
    KeepsPlan(b, SeedPlan(b, "business", ids), "pro");
  }

  lemma SeedsOne(plans: seq<PlanRow>, key: string, ids: NewIds)
    ensures HasPlan(SeedPlan(plans, key, ids), key) && plans <= SeedPlan(plans, key, ids)
  {
    var seeded := SeedPlan(plans, key, ids);
    if !HasPlan(plans, key) {
      assert seeded[|plans|].key == key;
    }
  }

  lemma KeepsPlan(plans: seq<PlanRow>, more: seq<PlanRow>, key: string)
    requires plans <= more
    ensures HasPlan(plans, key) ==> HasPlan(more, key)
  {
    if HasPlan(plans, key) {
      var i :| 0 <= i < |plans| && plans[i].key == key;
      assert more[i].key == key;
    }
  }

  ghost predicate AllColumns(db: Db) {
    && HasColumn(db, "tenants", "status") && HasColumn(db, "tenants", "is_platform_scope")
    && HasColumn(db, "tenants", "plan_id") && HasColumn(db, "tenants", "signup_ip")
    && HasColumn(db, "admin_users", "tenant_id") && HasColumn(db, "admin_users", "role")
    && (HasTable(db, "domains") ==> HasColumn(db, "domains", "cf_hostname_id"))
    && (HasTable(db, "deploy_hooks") ==> HasColumn(db, "deploy_hooks", "previews"))
    && (HasTable(db, "tenant_resources") ==>
          && HasColumn(db, "tenant_resources", "cpu_millicores") && HasColumn(db, "tenant_resources", "mem_mb")
          && HasColumn(db, "tenant_resources", "disk_mb"))
  }

  ghost predicate ResourcesFilled(db: Db) {
    HasTable(db, "tenant_resources") ==>
      forall i :: 0 <= i < |db.resources| && db.resources[i].kind == "app" ==> db.resources[i].cpu.Some?
  }

  ghost predicate Prepared(db: Db) {
    HasTable(db, "plans") && AllColumns(db) && PlansSeeded(db) && ResourcesFilled(db)
  }

  ghost predicate Upgradable(db: Db) {
    HasTable(db, "tenants") && HasTable(db, "admin_users") && HasTable(db, "plans")
  }

  ghost predicate SameTables(a: Db, b: Db) {
    a.columns.Keys == b.columns.Keys
  }

  /** Nothing but new columns of one table, and its rows' defaults. */
  ghost predicate OnlyAdds(a: Db, db: Db, table: string, columns: set<string>) {
    && SameTables(a, db) && a.plans == db.plans
    && |a.tenants| == |db.tenants|
    && forall t, c :: HasColumn(a, t, c) <==> HasColumn(db, t, c) || (t == table && t in db.columns && c in columns)
  }

  lemma TenantColumns(db: Db)
    requires HasTable(db, "tenants")
    ensures OnlyAdds(AddTenantColumns(db), db, "tenants", {"status", "is_platform_scope"})
    ensures AddTenantColumns(db).admins == db.admins
  {
  }

  lemma AdminTenantColumn(db: Db)
    requires HasTable(db, "admin_users")
    ensures OnlyAdds(AddAdminTenant(db), db, "admin_users", {"tenant_id"})
    ensures !HasColumn(db, "admin_users", "tenant_id") ==>
              forall i :: 0 <= i < |AddAdminTenant(db).admins| ==> Orphan(AddAdminTenant(db).admins[i])
  {
  }

  lemma PlanColumns(db: Db)
    requires HasTable(db, "tenants")
    ensures OnlyAdds(AddPlanColumns(db), db, "tenants", {"plan_id", "signup_ip"})
    ensures AddPlanColumns(db).admins == db.admins
  {
  }

  lemma RoleColumn(db: Db)
    requires HasTable(db, "admin_users")
    ensures OnlyAdds(AddRole(db), db, "admin_users", {"role"})
    ensures |AddRole(db).admins| == |db.admins|
    ensures forall i :: 0 <= i < |db.admins| ==> AddRole(db).admins[i].tenantId == db.admins[i].tenantId
  {
  }

  lemma AccountColumns(db: Db)
    requires HasTable(db, "tenants") && HasTable(db, "admin_users")
    ensures var a := AddAccountColumns(db);
            && SameTables(a, db) && a.plans == db.plans && |a.tenants| == |db.tenants|
            && HasColumn(a, "tenants", "status") && HasColumn(a, "tenants", "is_platform_scope")
            && HasColumn(a, "tenants", "plan_id") && HasColumn(a, "tenants", "signup_ip")
            && HasColumn(a, "admin_users", "tenant_id") && HasColumn(a, "admin_users", "role")
            && (HasColumn(a, "tenants", "is_active") <==> HasColumn(db, "tenants", "is_active"))
            && (!HasColumn(db, "admin_users", "tenant_id") ==> forall i :: 0 <= i < |a.admins| ==> Orphan(a.admins[i]))
  {
    hide AddTenantColumns, AddAdminTenant, AddPlanColumns, AddRole;
    TenantColumns(db);
    var a := AddTenantColumns(db);
    AdminTenantColumn(a);
    var b := AddAdminTenant(a);
    PlanColumns(b);
    var c := AddPlanColumns(b);
    RoleColumn(c);
  }

  /** Columns only ever get more, and the account rows stay as they are. */
  ghost predicate Extends(a: Db, b: Db) {
    && SameTables(a, b) && a.tenants == b.tenants && a.admins == b.admins
    && (forall table, column :: HasColumn(b, table, column) ==> HasColumn(a, table, column))
    && (HasColumn(a, "tenants", "is_active") ==> HasColumn(b, "tenants", "is_active"))
  }

  lemma OtherColumns(db: Db)
    ensures var a := AddOthers(db);
            && Extends(a, db) && a.plans == db.plans
            && (HasTable(a, "domains") ==> HasColumn(a, "domains", "cf_hostname_id"))
            && (HasTable(a, "deploy_hooks") ==> HasColumn(a, "deploy_hooks", "previews"))
  {
  }

  lemma ResourceColumns(db: Db, s: Settings)
    ensures var a := PrepareResources(db, s);
            && Extends(a, db) && a.plans == db.plans && ResourcesFilled(a)
            && (HasTable(a, "tenant_resources") ==>
                  && HasColumn(a, "tenant_resources", "cpu_millicores") && HasColumn(a, "tenant_resources", "mem_mb")
                  && HasColumn(a, "tenant_resources", "disk_mb"))
  {
  }

  lemma PrepareKeepsTables(db: Db, s: Settings, ids: NewIds)
    requires HasTable(db, "tenants") && HasTable(db, "admin_users")
    ensures SameTables(Prepare(db, s, ids), db)
  {
    AccountColumns(db);
    var seeded := Seed(AddAccountColumns(db), ids);
    OtherColumns(seeded);
    ResourceColumns(AddOthers(seeded), s);
  }

  lemma PrepareEstablishes(db: Db, s: Settings, ids: NewIds)
    requires Upgradable(db)
    ensures Prepared(Prepare(db, s, ids))
    ensures HasColumn(Prepare(db, s, ids), "tenants", "is_active") <==> HasColumn(db, "tenants", "is_active")
    ensures |Prepare(db, s, ids).tenants| == |db.tenants|
    ensures !HasColumn(db, "admin_users", "tenant_id") ==>
              forall i :: 0 <= i < |Prepare(db, s, ids).admins| ==> Orphan(Prepare(db, s, ids).admins[i])
  {
    AccountColumns(db);
    SeedsAll(db.plans, ids);
    var seeded := Seed(AddAccountColumns(db), ids);
    OtherColumns(seeded);
    ResourceColumns(AddOthers(seeded), s);
  }

  /** On a database that has all this already, preparing changes nothing. */
  lemma PrepareIsStable(db: Db, s: Settings, ids: NewIds)
    requires Upgradable(db) && Prepared(db)
    ensures Prepare(db, s, ids) == db
  {
    assert SeedPlans(db.plans, ids) == db.plans;
    if HasTable(db, "tenant_resources") {
      assert UpdateAll(db.resources, (r: Resource) => BackfillResource(r, s)) == db.resources;
    }
  }

  /** Every tenant has a plan, somebody is platform admin if there are admins at all, and every
      platform admin's tenant is platform-scope. */
  ghost predicate Settled(db: Db, s: Settings) {
    && (forall i :: 0 <= i < |db.tenants| ==>
          TenantSettled(db.tenants[i], HasColumn(db, "tenants", "is_active"), db.admins))
    && (db.admins != [] ==> AnyPlatformAdmin(db.admins))
    && (forall i :: 0 <= i < |db.admins| ==> PromoteBootstrap(db.admins[i], s) == db.admins[i])
  }

  ghost predicate TenantSettled(t: Tenant, legacy: bool, admins: seq<Admin>) {
    && t.planId.Some?
    && (t.slug == "default" ==> t.platformScope)
    && (HomeOfPlatformAdmin(t.id, admins) ==> t.platformScope)
    && (legacy && !t.isActive ==> t.status != "active")
  }

  lemma PromoteOldestWorks(admins: seq<Admin>)
    ensures |PromoteOldest(admins)| == |admins|
    ensures admins != [] ==> AnyPlatformAdmin(PromoteOldest(admins))
    ensures forall i :: 0 <= i < |admins| ==>
              PromoteOldest(admins)[i] == admins[i] || PromoteOldest(admins)[i] == admins[i].(role := PlatformAdmin)
  {
    if admins != [] && !AnyPlatformAdmin(admins) {
      var oldest := Oldest(admins);
      var i :| 0 <= i < |admins| && admins[i] == oldest;
      assert PromoteOldest(admins)[i].role == PlatformAdmin;
    }
  }

  lemma AdminsSettle(admins: seq<Admin>, s: Settings)
    ensures var end := PromoteOldest(UpdateAll(admins, (a: Admin) => PromoteBootstrap(a, s)));
            && (end != [] ==> AnyPlatformAdmin(end))
            && forall i :: 0 <= i < |end| ==> PromoteBootstrap(end[i], s) == end[i]
  {
    hide PromoteOldest;
    PromoteOldestWorks(UpdateAll(admins, (a: Admin) => PromoteBootstrap(a, s)));
  }

  lemma BackfillSettles(db: Db, s: Settings)
    requires HasPlan(db.plans, "free")
    ensures Settled(Backfill(db, s), s)
    ensures Backfill(db, s).columns == db.columns && Backfill(db, s).plans == db.plans
    ensures Backfill(db, s).resources == db.resources
  {
    hide PromoteOldest, PromoteBootstrap, FreePlanId, AnyPlatformAdmin;
    FreePlanFound(db.plans);
    AdminsSettle(db.admins, s);
  }

  lemma BackfillIsStable(db: Db, s: Settings)
    requires Settled(db, s)
    ensures Backfill(db, s) == db
  {
    var legacy, free := HasColumn(db, "tenants", "is_active"), FreePlanId(db.plans);
    assert UpdateAll(db.admins, (a: Admin) => PromoteBootstrap(a, s)) == db.admins;
    forall i | 0 <= i < |db.tenants|
      ensures ScopeTenant(BackfillTenant(db.tenants[i], legacy, free), db.admins) == db.tenants[i]
    {
      assert TenantSettled(db.tenants[i], legacy, db.admins);
    }
    assert Backfill(db, s).tenants == db.tenants;
  }

  // ------------------------------------------------------------ main results

  lemma AdoptKeepsPrepared(db: Db, ids: NewIds)
    requires Prepared(db)
    ensures Prepared(AdoptOrphans(db, ids))
  {
  }

  /** From every legacy state the upgrade succeeds and leaves everything settled. */
  lemma UpgradeEstablishes(db: Db, s: Settings, ids: NewIds)
    requires Upgradable(db)
    ensures Upgrade(db, s, ids).Some?
    ensures Prepared(Upgrade(db, s, ids).value) && Settled(Upgrade(db, s, ids).value, s)
  {
    hide Prepare, Backfill, Settled, AdoptOrphans;
    PrepareEstablishes(db, s, ids);
    var prepared := Prepare(db, s, ids);
    AdoptKeepsPrepared(prepared, ids);
    var adopted :=
      if !HasColumn(db, "admin_users", "tenant_id") && AnyOrphan(prepared.admins)
      then AdoptOrphans(prepared, ids) else prepared;
    BackfillSettles(adopted, s);
  }

  /** Upgrading twice is upgrading once, from every legacy state and whatever new identifiers
      the second run would have drawn. */
  lemma UpgradeIsIdempotent(db: Db, s: Settings, ids: NewIds, later: NewIds)
    requires Upgrade(db, s, ids).Some?
    ensures Upgrade(Upgrade(db, s, ids).value, s, later) == Upgrade(db, s, ids)
  {
    if Upgradable(db) {
      UpgradeEstablishes(db, s, ids);
      var once := Upgrade(db, s, ids).value;
      PrepareIsStable(once, s, later);
      BackfillIsStable(once, s);
    }
  }

  ghost predicate HasHome(a: Admin, tenants: seq<Tenant>) {
    exists i :: 0 <= i < |tenants| && a.tenantId == Some(tenants[i].id)
  }

  /** The promises of the upgrade, spelled out; in a database from before multi-tenancy every
      admin ends up in an existing tenant. */
  lemma UpgradePromises(db: Db, s: Settings, ids: NewIds)
    requires Upgradable(db)
    ensures var end := Upgrade(db, s, ids).value;
            && (forall i :: 0 <= i < |end.tenants| ==> end.tenants[i].planId.Some?)
            && (end.admins != [] ==> AnyPlatformAdmin(end.admins))
            && (forall i, j :: 0 <= i < |end.tenants| && 0 <= j < |end.admins|
                  && end.admins[j].role == PlatformAdmin && end.admins[j].tenantId == Some(end.tenants[i].id)
                  ==> end.tenants[i].platformScope)
            && (!HasColumn(db, "admin_users", "tenant_id") ==>
                  forall j :: 0 <= j < |end.admins| ==> HasHome(end.admins[j], end.tenants))
  {
    UpgradeEstablishes(db, s, ids);
    var end := Upgrade(db, s, ids).value;
    forall i | 0 <= i < |end.tenants|
      ensures TenantSettled(end.tenants[i], HasColumn(end, "tenants", "is_active"), end.admins)
    {
    }
    if !HasColumn(db, "admin_users", "tenant_id") {
      LegacyAdminsFindHome(db, s, ids);
    }
  }

  /** Every admin of a database from before tenancy ends up in an existing tenant. */
  lemma LegacyAdminsFindHome(db: Db, s: Settings, ids: NewIds)
    requires Upgradable(db) && !HasColumn(db, "admin_users", "tenant_id")
    ensures var end := Upgrade(db, s, ids).value;
            forall j :: 0 <= j < |end.admins| ==> HasHome(end.admins[j], end.tenants)
  {
    PrepareEstablishes(db, s, ids);
    var prepared := Prepare(db, s, ids);
    if prepared.admins != [] {
      assert Orphan(prepared.admins[0]);
      var adopted := AdoptOrphans(prepared, ids);
      forall j | 0 <= j < |adopted.admins|
        ensures adopted.admins[j].tenantId == Some(adopted.tenants[0].id)
      {
        assert Orphan(prepared.admins[j]);
      }
      BackfillKeepsHomes(adopted, s);
    } else {
      BackfillKeepsHomes(prepared, s);
    }
  }

  lemma BackfillKeepsHomes(db: Db, s: Settings)
    ensures var end := Backfill(db, s);
            && |end.admins| == |db.admins| && |end.tenants| == |db.tenants|
            && (forall j :: 0 <= j < |end.admins| ==> end.admins[j].tenantId == db.admins[j].tenantId)
            && (forall i :: 0 <= i < |end.tenants| ==> end.tenants[i].id == db.tenants[i].id)
  {
    PromoteOldestWorks(UpdateAll(db.admins, (a: Admin) => PromoteBootstrap(a, s)));
  }

  // ------------------------------------------------------------ what the upgrade leaves alone

  /** Which of the columns that the upgrade may add were there from the start. */
  datatype Had = Had(status: bool, scope: bool, plan: bool, ip: bool, home: bool, role: bool,
                     cpu: bool, mem: bool, disk: bool)

  function HadColumns(db: Db): Had {
    Had(HasColumn(db, "tenants", "status"), HasColumn(db, "tenants", "is_platform_scope"),
        HasColumn(db, "tenants", "plan_id"), HasColumn(db, "tenants", "signup_ip"),
        HasColumn(db, "admin_users", "tenant_id"), HasColumn(db, "admin_users", "role"),
        HasColumn(db, "tenant_resources", "cpu_millicores"), HasColumn(db, "tenant_resources", "mem_mb"),
        HasColumn(db, "tenant_resources", "disk_mb"))
  }

  ghost predicate StillHas(had: Had, db: Db) {
    var now := HadColumns(db);
    && (had.status ==> now.status) && (had.scope ==> now.scope) && (had.plan ==> now.plan) && (had.ip ==> now.ip)
    && (had.home ==> now.home) && (had.role ==> now.role)
    && (had.cpu ==> now.cpu) && (had.mem ==> now.mem) && (had.disk ==> now.disk)
  }

  /** What was recorded in a column that was there stays; a status may go from active to
      suspended, for an inactive tenant. */
  ghost predicate TenantKept(had: Had, before: Tenant, after: Tenant) {
    && after.id == before.id && after.slug == before.slug && after.isActive == before.isActive
    && (had.status ==>
          after.status == before.status
          || (!before.isActive && before.status == "active" && after.status == "suspended"))
    && (had.scope && before.platformScope ==> after.platformScope)
    && (had.plan && before.planId.Some? ==> after.planId == before.planId)
    && (had.ip ==> after.signupIp == before.signupIp)
  }

  ghost predicate AdminKept(had: Had, before: Admin, after: Admin) {
    && after.id == before.id && after.email == before.email && after.createdAt == before.createdAt
    && (had.home ==> after.tenantId == before.tenantId)
    && (had.role ==> after.role == before.role || after.role == PlatformAdmin)
  }

  ghost predicate ResourceKept(had: Had, before: Resource, after: Resource) {
    && after.kind == before.kind
    && (before.kind != "app" || (had.cpu && before.cpu.Some?) ==>
          && (had.cpu ==> after.cpu == before.cpu)
          && (had.mem ==> after.mem == before.mem)
          && (had.disk ==> after.disk == before.disk))
  }

  ghost predicate TenantsKept(had: Had, a: seq<Tenant>, b: seq<Tenant>) {
    |a| <= |b| && forall i :: 0 <= i < |a| ==> TenantKept(had, a[i], b[i])
  }

  ghost predicate AdminsKept(had: Had, a: seq<Admin>, b: seq<Admin>) {
    |a| == |b| && forall i :: 0 <= i < |a| ==> AdminKept(had, a[i], b[i])
  }

  ghost predicate ResourcesKept(had: Had, a: seq<Resource>, b: seq<Resource>) {
    |a| == |b| && forall i :: 0 <= i < |a| ==> ResourceKept(had, a[i], b[i])
  }

  /** All plans stay, in front, and each one added is a default plan whose key none had before. */
  ghost predicate PlansKept(a: seq<PlanRow>, b: seq<PlanRow>) {
    && a <= b
    && forall i :: |a| <= i < |b| ==>
         b[i].key in {"free", "pro", "business"} && forall j :: 0 <= j < i ==> b[j].key != b[i].key
  }

  lemma PlansKeptFurther(a: seq<PlanRow>, b: seq<PlanRow>, c: seq<PlanRow>)
    requires PlansKept(a, b) && PlansKept(b, c)
    ensures PlansKept(a, c)
  {
    forall i | |a| <= i < |c|
      ensures c[i].key in {"free", "pro", "business"} && forall j :: 0 <= j < i ==> c[j].key != c[i].key
    {
      if i < |b| {
        assert c[..|b|] == b && c[i] == b[i];
        assert forall j :: 0 <= j < i ==> c[j] == b[j];
      }
    }
  }

  lemma SeedAddsOne(plans: seq<PlanRow>, key: string, ids: NewIds)
    requires key in {"free", "pro", "business"}
    ensures PlansKept(plans, SeedPlan(plans, key, ids))
  {
  }

  lemma SeedAddsDefaults(plans: seq<PlanRow>, ids: NewIds)
    ensures PlansKept(plans, SeedPlans(plans, ids))
  {
    hide PlansKept, SeedPlan;
    var a := SeedPlan(plans, "free", ids);
    SeedAddsOne(plans, "free", ids);
    var b := SeedPlan(a, "pro", ids);
    SeedAddsOne(a, "pro", ids);
    SeedAddsOne(b, "business", ids);
    PlansKeptFurther(plans, a, b);
    PlansKeptFurther(plans, b, SeedPlan(b, "business", ids));
  }

  ghost predicate Kept(had: Had, a: Db, b: Db) {
    && SameTables(a, b) && PlansKept(a.plans, b.plans)
    && TenantsKept(had, a.tenants, b.tenants)
    && AdminsKept(had, a.admins, b.admins)
    && ResourcesKept(had, a.resources, b.resources)
  }

  lemma KeptFurther(had: Had, a: Db, b: Db, c: Db)
    requires Kept(had, a, b) && Kept(had, b, c)
    ensures Kept(had, a, c)
  {
    hide TenantKept, AdminKept, ResourceKept, PlansKept;
    PlansKeptFurther(a.plans, b.plans, c.plans);
    forall i | 0 <= i < |a.tenants|
      ensures TenantKept(had, a.tenants[i], c.tenants[i])
    {
      TenantKeptFurther(had, a.tenants[i], b.tenants[i], c.tenants[i]);
    }
    forall i | 0 <= i < |a.admins|
      ensures AdminKept(had, a.admins[i], c.admins[i])
    {
      AdminKeptFurther(had, a.admins[i], b.admins[i], c.admins[i]);
    }
    forall i | 0 <= i < |a.resources|
      ensures ResourceKept(had, a.resources[i], c.resources[i])
    {
      ResourceKeptFurther(had, a.resources[i], b.resources[i], c.resources[i]);
    }
  }

  lemma TenantKeptFurther(had: Had, a: Tenant, b: Tenant, c: Tenant)
    requires TenantKept(had, a, b) && TenantKept(had, b, c)
    ensures TenantKept(had, a, c)
  {
  }

  lemma AdminKeptFurther(had: Had, a: Admin, b: Admin, c: Admin)
    requires AdminKept(had, a, b) && AdminKept(had, b, c)
    ensures AdminKept(had, a, c)
  {
  }

  lemma ResourceKeptFurther(had: Had, a: Resource, b: Resource, c: Resource)
    requires ResourceKept(had, a, b) && ResourceKept(had, b, c)
    ensures ResourceKept(had, a, c)
  {
  }

  /** Adding one column to a table whose rows it leaves alone otherwise. */
  lemma TenantColumnKeeps(had: Had, db: Db, column: string, f: Tenant -> Tenant)
    requires HasTable(db, "tenants") && StillHas(had, db)
    requires forall t :: TenantKept(had, t, f(t))
    ensures var b := NoteColumn(db, "tenants", column).(tenants := UpdateAll(db.tenants, f));
            Kept(had, db, b) && StillHas(had, b) && |b.tenants| == |db.tenants|
  {
    hide TenantKept;
    NotedStillHas(had, db, "tenants", column);
    var b := NoteColumn(db, "tenants", column).(tenants := UpdateAll(db.tenants, f));
    assert b.columns == NoteColumn(db, "tenants", column).columns;
    Unchanged(had, db);
  }

  lemma NotedStillHas(had: Had, db: Db, table: string, column: string)
    requires HasTable(db, table) && StillHas(had, db)
    ensures StillHas(had, NoteColumn(db, table, column)) && SameTables(NoteColumn(db, table, column), db)
  {
  }

  lemma TenantColumnsKeep(had: Had, db: Db)
    requires HasTable(db, "tenants") && StillHas(had, db)
    ensures Kept(had, db, AddTenantColumns(db)) && StillHas(had, AddTenantColumns(db))
    ensures |AddTenantColumns(db).tenants| == |db.tenants|
  {
    hide Kept, TenantsKept, UpdateAll, NoteColumn;
    var f, g := (t: Tenant) => t.(status := "active"), (t: Tenant) => t.(platformScope := false);
    var a := if HasColumn(db, "tenants", "status") then db
             else NoteColumn(db, "tenants", "status").(tenants := UpdateAll(db.tenants, f));
    Unchanged(had, db);
    if !HasColumn(db, "tenants", "status") {
      TenantColumnKeeps(had, db, "status", f);
    }
    SameTablesKept(had, db, a);
    Unchanged(had, a);
    if !HasColumn(a, "tenants", "is_platform_scope") {
      TenantColumnKeeps(had, a, "is_platform_scope", g);
    }
    KeptFurther(had, db, a, AddTenantColumns(db));
  }

  lemma SameTablesKept(had: Had, a: Db, b: Db)
    requires Kept(had, a, b)
    ensures SameTables(a, b)
  {
  }

  lemma AdminTenantKeeps(had: Had, db: Db)
    requires HasTable(db, "admin_users") && StillHas(had, db)
    ensures Kept(had, db, AddAdminTenant(db)) && StillHas(had, AddAdminTenant(db))
    ensures |AddAdminTenant(db).tenants| == |db.tenants|
  {
  }

  lemma PlanColumnsKeep(had: Had, db: Db)
    requires HasTable(db, "tenants") && StillHas(had, db)
    ensures Kept(had, db, AddPlanColumns(db)) && StillHas(had, AddPlanColumns(db))
    ensures |AddPlanColumns(db).tenants| == |db.tenants|
  {
    hide Kept, TenantsKept, UpdateAll, NoteColumn;
    var f, g := (t: Tenant) => t.(planId := None), (t: Tenant) => t.(signupIp := None);
    var a := if HasColumn(db, "tenants", "plan_id") then db
             else NoteColumn(db, "tenants", "plan_id").(tenants := UpdateAll(db.tenants, f));
    Unchanged(had, db);
    if !HasColumn(db, "tenants", "plan_id") {
      TenantColumnKeeps(had, db, "plan_id", f);
    }
    SameTablesKept(had, db, a);
    Unchanged(had, a);
    if !HasColumn(a, "tenants", "signup_ip") {
      TenantColumnKeeps(had, a, "signup_ip", g);
    }
    KeptFurther(had, db, a, AddPlanColumns(db));
  }

  lemma RoleKeeps(had: Had, db: Db)
    requires HasTable(db, "admin_users") && StillHas(had, db)
    ensures Kept(had, db, AddRole(db)) && StillHas(had, AddRole(db))
    ensures |AddRole(db).tenants| == |db.tenants|
  {
  }

  lemma SeedKeeps(had: Had, db: Db, ids: NewIds)
    requires StillHas(had, db)
    ensures Kept(had, db, Seed(db, ids)) && StillHas(had, Seed(db, ids))
    ensures |Seed(db, ids).tenants| == |db.tenants|
  {
    hide SeedPlans, PlansKept;
    SeedAddsDefaults(db.plans, ids);
    NoPlansAdded(db.plans);
  }

  lemma NoPlansAdded(plans: seq<PlanRow>)
    ensures PlansKept(plans, plans)
  {
  }

  lemma OthersKeep(had: Had, db: Db)
    requires StillHas(had, db)
    ensures Kept(had, db, AddOthers(db)) && StillHas(had, AddOthers(db))
    ensures |AddOthers(db).tenants| == |db.tenants|
  {
  }

  lemma ResourceColumnKeeps(had: Had, db: Db, column: string, f: Resource -> Resource)
    requires HasTable(db, "tenant_resources") && StillHas(had, db)
    requires forall r :: ResourceKept(had, r, f(r))
    ensures var b := NoteColumn(db, "tenant_resources", column).(resources := UpdateAll(db.resources, f));
            Kept(had, db, b) && StillHas(had, b) && b.tenants == db.tenants && HasTable(b, "tenant_resources")
  {
    hide ResourceKept;
    NotedStillHas(had, db, "tenant_resources", column);
    var b := NoteColumn(db, "tenant_resources", column).(resources := UpdateAll(db.resources, f));
    assert b.columns == NoteColumn(db, "tenant_resources", column).columns;
    Unchanged(had, db);
  }

  lemma WithResourceColumnKeeps(had: Had, db: Db, column: string, f: Resource -> Resource)
    requires HasTable(db, "tenant_resources") && StillHas(had, db)
    requires !HasColumn(db, "tenant_resources", column) ==> forall r :: ResourceKept(had, r, f(r))
    ensures var b := WithResourceColumn(db, column, f);
            Kept(had, db, b) && StillHas(had, b) && b.tenants == db.tenants && HasTable(b, "tenant_resources")
  {
    hide Kept, StillHas, UpdateAll, NoteColumn, ResourceKept;
    if HasColumn(db, "tenant_resources", column) {
      Unchanged(had, db);
    } else {
      ResourceColumnKeeps(had, db, column, f);
    }
  }

  lemma ResourceColumnsKeep(had: Had, db: Db)
    requires HasTable(db, "tenant_resources") && StillHas(had, db)
    ensures Kept(had, db, AddResourceColumns(db)) && StillHas(had, AddResourceColumns(db))
    ensures AddResourceColumns(db).tenants == db.tenants
  {
    hide Kept, UpdateAll, NoteColumn, WithResourceColumn;
    var a := WithResourceColumn(db, "cpu_millicores", (r: Resource) => r.(cpu := None));
    WithResourceColumnKeeps(had, db, "cpu_millicores", (r: Resource) => r.(cpu := None));
    var b := WithResourceColumn(a, "mem_mb", (r: Resource) => r.(mem := None));
    WithResourceColumnKeeps(had, a, "mem_mb", (r: Resource) => r.(mem := None));
    var c := WithResourceColumn(b, "disk_mb", (r: Resource) => r.(disk := None));
    WithResourceColumnKeeps(had, b, "disk_mb", (r: Resource) => r.(disk := None));
    KeptFurther(had, db, a, b);
    KeptFurther(had, db, b, c);
  }

  lemma ResourcesKeep(had: Had, db: Db, s: Settings)
    requires StillHas(had, db)
    ensures Kept(had, db, PrepareResources(db, s)) && StillHas(had, PrepareResources(db, s))
    ensures |PrepareResources(db, s).tenants| == |db.tenants|
  {
    if HasTable(db, "tenant_resources") {
      ResourceColumnsKeep(had, db);
      var a := AddResourceColumns(db);
      BackfillResourcesKeeps(had, a, s);
      KeptFurther(had, db, a, BackfillResources(a, s));
    } else {
      Unchanged(had, db);
    }
  }

  lemma Unchanged(had: Had, db: Db)
    ensures Kept(had, db, db)
  {
  }

  lemma BackfillResourcesKeeps(had: Had, db: Db, s: Settings)
    requires StillHas(had, db)
    ensures Kept(had, db, BackfillResources(db, s)) && StillHas(had, BackfillResources(db, s))
    ensures BackfillResources(db, s).tenants == db.tenants
  {
  }

  lemma AccountColumnsKeep(had: Had, db: Db)
    requires HasTable(db, "tenants") && HasTable(db, "admin_users") && StillHas(had, db)
    ensures Kept(had, db, AddAccountColumns(db)) && StillHas(had, AddAccountColumns(db))
    ensures |AddAccountColumns(db).tenants| == |db.tenants|
  {
    hide AddTenantColumns, AddAdminTenant, AddPlanColumns, AddRole, TenantsKept, AdminsKept, ResourcesKept, StillHas;
    TenantColumnsKeep(had, db);
    var a := AddTenantColumns(db);
    AdminTenantKeeps(had, a);
    var b := AddAdminTenant(a);
    PlanColumnsKeep(had, b);
    var c := AddPlanColumns(b);
    RoleKeeps(had, c);
    KeptFurther(had, db, a, b);
    KeptFurther(had, db, b, c);
    KeptFurther(had, db, c, AddRole(c));
  }

  lemma PrepareKeeps(had: Had, db: Db, s: Settings, ids: NewIds)
    requires HasTable(db, "tenants") && HasTable(db, "admin_users") && StillHas(had, db)
    ensures Kept(had, db, Prepare(db, s, ids)) && |Prepare(db, s, ids).tenants| == |db.tenants|
  {
    hide AddAccountColumns, Seed, AddOthers, PrepareResources, Kept, StillHas;
    AccountColumnsKeep(had, db);
    var a := AddAccountColumns(db);
    SeedKeeps(had, a, ids);
    var b := Seed(a, ids);
    OthersKeep(had, b);
    var c := AddOthers(b);
    ResourcesKeep(had, c, s);
    KeptFurther(had, db, a, b);
    KeptFurther(had, db, b, c);
    KeptFurther(had, db, c, PrepareResources(c, s));
  }

  lemma AdoptKeeps(had: Had, db: Db, ids: NewIds)
    requires !had.home
    ensures Kept(had, db, AdoptOrphans(db, ids))
    ensures |AdoptOrphans(db, ids).tenants| == if db.tenants == [] then 1 else |db.tenants|
  {
  }

  lemma BackfillTenantKeeps(had: Had, t: Tenant, legacy: bool, free: Option<string>, admins: seq<Admin>)
    ensures TenantKept(had, t, ScopeTenant(BackfillTenant(t, legacy, free), admins))
  {
    hide HomeOfPlatformAdmin;
  }

  lemma PromotionKeeps(had: Had, admins: seq<Admin>, s: Settings)
    ensures AdminsKept(had, admins, PromoteOldest(UpdateAll(admins, (a: Admin) => PromoteBootstrap(a, s))))
  {
    hide PromoteOldest;
    PromoteOldestWorks(UpdateAll(admins, (a: Admin) => PromoteBootstrap(a, s)));
  }

  lemma BackfillKeeps(had: Had, db: Db, s: Settings)
    ensures Kept(had, db, Backfill(db, s)) && |Backfill(db, s).tenants| == |db.tenants|
  {
    hide PromoteOldest, PromoteBootstrap, BackfillTenant, ScopeTenant, FreePlanId;
    hide TenantKept, AdminsKept, ResourcesKept;
    var end, legacy, free := Backfill(db, s), HasColumn(db, "tenants", "is_active"), FreePlanId(db.plans);
    PromotionKeeps(had, db.admins, s);
    SameResourcesKept(had, db.resources);
    forall i | 0 <= i < |db.tenants|
      ensures TenantKept(had, db.tenants[i], end.tenants[i])
    {
      BackfillTenantKeeps(had, db.tenants[i], legacy, free, end.admins);
    }
  }

  lemma SameResourcesKept(had: Had, resources: seq<Resource>)
    ensures ResourcesKept(had, resources, resources)
  {
  }

  /** Whether the upgrade hands admins of a database from before tenancy to a tenant. */
  predicate Adopts(db: Db) {
    !HasColumn(db, "admin_users", "tenant_id") && db.admins != []
  }

  /** From every legacy state: no row disappears, and no row is added except the default plans and,
      for admins that have no tenant to go to, the one tenant that adopts them; identities stay;
      and what was recorded in a column that was there before stays recorded, column by column. */
  lemma UpgradeTakesNothingBack(db: Db, s: Settings, ids: NewIds)
    requires Upgradable(db)
    ensures var end := Upgrade(db, s, ids).value;
            && Kept(HadColumns(db), db, end)
            && |end.tenants| == |db.tenants| + if Adopts(db) && db.tenants == [] then 1 else 0
  {
    hide Kept, Prepare, Backfill, AdoptOrphans;
    var had, prepared := HadColumns(db), Prepare(db, s, ids);
    PrepareKeeps(had, db, s, ids);
    PrepareEstablishes(db, s, ids);
    SameAdmins(had, db, prepared);
    if prepared.admins != [] {
      AllOrphaned(prepared.admins);
    }
    if !HasColumn(db, "admin_users", "tenant_id") && AnyOrphan(prepared.admins) {
      var adopted := AdoptOrphans(prepared, ids);
      AdoptKeeps(had, prepared, ids);
      BackfillKeeps(had, adopted, s);
      KeptFurther(had, db, prepared, adopted);
      KeptFurther(had, db, adopted, Backfill(adopted, s));
    } else {
      BackfillKeeps(had, prepared, s);
      KeptFurther(had, db, prepared, Backfill(prepared, s));
    }
  }

  lemma AllOrphaned(admins: seq<Admin>)
    requires admins != []
    ensures (forall i :: 0 <= i < |admins| ==> Orphan(admins[i])) ==> AnyOrphan(admins)
  {
    assert Orphan(admins[0]) ==> AnyOrphan(admins);
  }

  lemma SameAdmins(had: Had, a: Db, b: Db)
    requires Kept(had, a, b)
    ensures |a.admins| == |b.admins|
  {
  }

  /** The allocation backfill is not column by column: an app row that has no CPU value, or had
      no CPU column to hold one, gets all three defaults. So a memory or disk value that was
      recorded survives exactly if the CPU was recorded too, or if it was the default anyway. */
  lemma AllocationsSurviveExactly(db: Db, s: Settings, ids: NewIds, i: nat)
    requires Upgradable(db) && HasTable(db, "tenant_resources")
    requires i < |db.resources| && db.resources[i].kind == "app"
    ensures var had, before, after := HadColumns(db), db.resources[i], Upgrade(db, s, ids).value.resources;
            && i < |after|
            && (had.mem ==>
                  (after[i].mem == before.mem <==> (had.cpu && before.cpu.Some?) || before.mem == Some(s.mem)))
            && (had.disk ==>
                  (after[i].disk == before.disk <==> (had.cpu && before.cpu.Some?) || before.disk == Some(s.disk)))
  {
    hide AddTenantColumns, AddAdminTenant, AddPlanColumns, AddRole, SeedPlans, PromoteOldest, PrepareResources;
    PreparedResources(db, s, ids);
  }

  /** A row as it stands once the missing columns are there. */
  function WithColumns(had: Had, r: Resource): Resource {
    r.(cpu := if had.cpu then r.cpu else None,
       mem := if had.mem then r.mem else None,
       disk := if had.disk then r.disk else None)
  }

  lemma PreparedResources(db: Db, s: Settings, ids: NewIds)
    requires Upgradable(db) && HasTable(db, "tenant_resources")
    ensures var had, prepared := HadColumns(db), Prepare(db, s, ids).resources;
            && |prepared| == |db.resources|
            && forall i :: 0 <= i < |prepared| ==>
                 prepared[i] == BackfillResource(WithColumns(had, db.resources[i]), s)
  {
    hide BackfillResource, WithColumns, PrepareResources, AddAccountColumns, SeedPlans, Seed, AddOthers;
    var a := AddAccountColumns(db);
    AccountResources(db);
    var b := AddOthers(Seed(a, ids));
    OtherResources(a, ids);
    FilledResources(b, s);
    assert HadColumns(b).cpu == HadColumns(db).cpu && HadColumns(b).mem == HadColumns(db).mem
        && HadColumns(b).disk == HadColumns(db).disk;
    forall i | 0 <= i < |db.resources|
      ensures WithColumns(HadColumns(b), db.resources[i]) == WithColumns(HadColumns(db), db.resources[i])
    {
      SameWithColumns(HadColumns(b), HadColumns(db), db.resources[i]);
    }
  }

  lemma SameWithColumns(a: Had, b: Had, r: Resource)
    requires a.cpu == b.cpu && a.mem == b.mem && a.disk == b.disk
    ensures WithColumns(a, r) == WithColumns(b, r)
  {
  }

  lemma OtherResources(db: Db, ids: NewIds)
    ensures SameResources(AddOthers(Seed(db, ids)), db)
  {
    hide SeedPlans;
  }

  lemma FilledResources(db: Db, s: Settings)
    requires HasTable(db, "tenant_resources")
    ensures var filled := PrepareResources(db, s).resources;
            && |filled| == |db.resources|
            && forall i :: 0 <= i < |filled| ==>
                 filled[i] == BackfillResource(WithColumns(HadColumns(db), db.resources[i]), s)
  {
    hide BackfillResource;
    AddedResources(db);
  }

  lemma AddedResources(db: Db)
    requires HasTable(db, "tenant_resources")
    ensures var added := AddResourceColumns(db).resources;
            && |added| == |db.resources|
            && forall i :: 0 <= i < |added| ==> added[i] == WithColumns(HadColumns(db), db.resources[i])
  {
    var a := WithResourceColumn(db, "cpu_millicores", (r: Resource) => r.(cpu := None));
    var b := WithResourceColumn(a, "mem_mb", (r: Resource) => r.(mem := None));
    assert HasColumn(a, "tenant_resources", "mem_mb") <==> HasColumn(db, "tenant_resources", "mem_mb");
    assert HasColumn(b, "tenant_resources", "disk_mb") <==> HasColumn(db, "tenant_resources", "disk_mb");
    hide NoteColumn, HasColumn;
  }

  lemma AccountResources(db: Db)
    requires HasTable(db, "tenants") && HasTable(db, "admin_users")
    ensures SameResources(AddAccountColumns(db), db)
  {
    hide AddTenantColumns, AddAdminTenant, AddPlanColumns, AddRole;
    TenantResources(db);
    var a := AddTenantColumns(db);
    AdminTenantResources(a);
    var b := AddAdminTenant(a);
    PlanResources(b);
    RoleResources(AddPlanColumns(b));
  }

  ghost predicate SameResources(a: Db, b: Db) {
    && SameTables(a, b) && a.resources == b.resources
    && (HasTable(b, "tenant_resources") ==> a.columns["tenant_resources"] == b.columns["tenant_resources"])
  }

  lemma TenantResources(db: Db)
    requires HasTable(db, "tenants")
    ensures SameResources(AddTenantColumns(db), db)
  {
    hide UpdateAll;
  }

  lemma AdminTenantResources(db: Db)
    requires HasTable(db, "admin_users")
    ensures SameResources(AddAdminTenant(db), db)
  {
    hide UpdateAll;
  }

  lemma PlanResources(db: Db)
    requires HasTable(db, "tenants")
    ensures SameResources(AddPlanColumns(db), db)
  {
    hide UpdateAll;
  }

  lemma RoleResources(db: Db)
    requires HasTable(db, "admin_users")
    ensures SameResources(AddRole(db), db)
  {
    hide UpdateAll;
  }
}
