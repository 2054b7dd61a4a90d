/** Row by row, what the schema upgrade leaves in every column it touches (app/db/session.py): who
    ends up platform admin, which tenants are platform-scope, suspended or on which plan, and what
    every resource is allotted; for every legacy state, whichever columns it had. */
module SchemaRows {
  import opened Text
  import opened Schema

  // ------------------------------------------------------------ rows once the columns are there

  /** A column that was missing holds its default. */
  function TenantWithColumns(had: Had, t: Tenant): Tenant {
    t.(status := if had.status then t.status else "active",
       platformScope := had.scope && t.platformScope,
       planId := if had.plan then t.planId else None,
       signupIp := if had.ip then t.signupIp else None)
  }

  function AdminWithColumns(had: Had, a: Admin): Admin {
    a.(tenantId := if had.home then a.tenantId else None,
       role := if had.role then a.role else "owner")
  }

  ghost predicate SameAdminColumns(a: Db, b: Db) {
    && (HasColumn(a, "admin_users", "tenant_id") <==> HasColumn(b, "admin_users", "tenant_id"))
    && (HasColumn(a, "admin_users", "role") <==> HasColumn(b, "admin_users", "role"))
  }

  lemma FirstTenantStep(db: Db)
    requires HasTable(db, "tenants")
    ensures var a, had := AddTenantColumns(db), HadColumns(db);
            && a.admins == db.admins && |a.tenants| == |db.tenants|
            && forall i :: 0 <= i < |a.tenants| ==>
                 a.tenants[i] == db.tenants[i].(status := if had.status then db.tenants[i].status else "active",
                                                platformScope := had.scope && db.tenants[i].platformScope)
  {
  }

  lemma SecondTenantStep(db: Db)
    requires HasTable(db, "tenants")
    ensures var a, had := AddPlanColumns(db), HadColumns(db);
            && a.admins == db.admins && |a.tenants| == |db.tenants|
            && forall i :: 0 <= i < |a.tenants| ==>
                 a.tenants[i] == db.tenants[i].(planId := if had.plan then db.tenants[i].planId else None,
                                                signupIp := if had.ip then db.tenants[i].signupIp else None)
  {
  }

  lemma FirstAdminStep(db: Db)
    requires HasTable(db, "admin_users")
    ensures var a, had := AddAdminTenant(db), HadColumns(db);
            && a.tenants == db.tenants && |a.admins| == |db.admins|
            && forall j :: 0 <= j < |a.admins| ==>
                 a.admins[j] == db.admins[j].(tenantId := if had.home then db.admins[j].tenantId else None)
  {
  }

  lemma SecondAdminStep(db: Db)
    requires HasTable(db, "admin_users")
    ensures var a, had := AddRole(db), HadColumns(db);
            && a.tenants == db.tenants && |a.admins| == |db.admins|
            && forall j :: 0 <= j < |a.admins| ==>
                 a.admins[j] == db.admins[j].(role := if had.role then db.admins[j].role else "owner")
  {
  }

  lemma AccountRows(db: Db)
    requires HasTable(db, "tenants") && HasTable(db, "admin_users")
    ensures var a, had := AddAccountColumns(db), HadColumns(db);
            && |a.tenants| == |db.tenants| && |a.admins| == |db.admins|
            && (forall i :: 0 <= i < |a.tenants| ==> a.tenants[i] == TenantWithColumns(had, db.tenants[i]))
            && (forall j :: 0 <= j < |a.admins| ==> a.admins[j] == AdminWithColumns(had, db.admins[j]))
  {
    hide AddTenantColumns, AddAdminTenant, AddPlanColumns, AddRole;
    var a := AddTenantColumns(db);
    TenantColumns(db);
    FirstTenantStep(db);
    var b := AddAdminTenant(a);
    AdminTenantColumn(a);
    FirstAdminStep(a);
    var c := AddPlanColumns(b);
    PlanColumns(b);
    SecondTenantStep(b);
    SecondAdminStep(c);
    hide HasColumn;
  }

  lemma PreparedRows(db: Db, s: Settings, ids: NewIds)
    requires Upgradable(db)
    ensures var p, had := Prepare(db, s, ids), HadColumns(db);
            && |p.tenants| == |db.tenants| && |p.admins| == |db.admins|
            && (forall i :: 0 <= i < |p.tenants| ==> p.tenants[i] == TenantWithColumns(had, db.tenants[i]))
            && (forall j :: 0 <= j < |p.admins| ==> p.admins[j] == AdminWithColumns(had, db.admins[j]))
  {
    hide AddAccountColumns, PrepareResources, AddOthers, TenantWithColumns, AdminWithColumns;
    AccountRows(db);
    var seeded := Seed(AddAccountColumns(db), ids);
    OtherColumns(seeded);
    ResourceColumns(AddOthers(seeded), s);
  }

  // ------------------------------------------------------------ who becomes platform admin

  /** The primary key. */
  ghost predicate DistinctIds(admins: seq<Admin>) {
    forall i, j :: 0 <= i < j < |admins| ==> admins[i].id != admins[j].id
  }

  /** The admin whose e-mail the settings name, without regard to case and surrounding space. */
  predicate IsBootstrap(a: Admin, s: Settings) {
    Lower(a.email) == Lower(Strip(s.bootstrapEmail))
  }

  /** Created before all others; of several, the first listed. */
  ghost predicate IsOldest(admins: seq<Admin>, j: nat) {
    && j < |admins|
    && forall i :: 0 <= i < |admins| ==>
         admins[j].createdAt <= admins[i].createdAt && (i < j ==> admins[j].createdAt < admins[i].createdAt)
  }

  lemma {:induction false} OldestIndex(admins: seq<Admin>) returns (j: nat)
    requires admins != []
    ensures IsOldest(admins, j) && admins[j] == Oldest(admins)
  {
    j := 0;
    if |admins| > 1 {
      var k := OldestIndex(admins[1..]);
      assert forall i :: 0 < i < |admins| ==> admins[i] == admins[1..][i - 1];
      if admins[0].createdAt > Oldest(admins[1..]).createdAt {
        j := k + 1;
      }
    }
  }

  lemma OnlyOneOldest(admins: seq<Admin>, i: nat, j: nat)
    requires IsOldest(admins, i) && IsOldest(admins, j)
    ensures i == j
  {
    assert admins[i].createdAt <= admins[j].createdAt && admins[j].createdAt <= admins[i].createdAt;
  }

  /** Nobody is platform admin yet, and nobody has the bootstrap e-mail. */
  ghost predicate NobodyQualifies(had: Had, admins: seq<Admin>, s: Settings) {
    forall i :: 0 <= i < |admins| ==>
      !IsBootstrap(admins[i], s) && AdminWithColumns(had, admins[i]).role != PlatformAdmin
  }

  /** The role an admin ends up with. */
  ghost function FinalRole(had: Had, admins: seq<Admin>, s: Settings, j: nat): string
    requires j < |admins|
  {
    if IsBootstrap(admins[j], s) || (NobodyQualifies(had, admins, s) && IsOldest(admins, j))
    then "platform_admin" else if had.role then admins[j].role else "owner"
  }

  lemma PromotedRoles(admins: seq<Admin>, s: Settings, j: nat)
    requires DistinctIds(admins) && j < |admins|
    ensures var after := PromoteOldest(UpdateAll(admins, (a: Admin) => PromoteBootstrap(a, s)));
            var nobody := forall i :: 0 <= i < |admins| ==>
                            !IsBootstrap(admins[i], s) && admins[i].role != PlatformAdmin;
            && |after| == |admins|
            && after[j] == if IsBootstrap(admins[j], s) || (nobody && IsOldest(admins, j))
                           then admins[j].(role := PlatformAdmin) else admins[j]
  {
    var first := UpdateAll(admins, (a: Admin) => PromoteBootstrap(a, s));
    hide Lower, Strip;
    assert forall i :: 0 <= i < |admins| ==>
        first[i] == if IsBootstrap(admins[i], s) then admins[i].(role := PlatformAdmin) else admins[i];
    hide IsBootstrap, Oldest, PromoteBootstrap;
    if !AnyPlatformAdmin(first) {
      assert forall i :: 0 <= i < |admins| ==> first[i] == admins[i];
      assert first == admins;
      var k := OldestIndex(first);
      if IsOldest(admins, j) {
        OnlyOneOldest(admins, j, k);
      }
      assert j != k ==> admins[j].id != admins[k].id;
    }
  }

  lemma SameOldest(a: seq<Admin>, b: seq<Admin>, j: nat)
    requires |a| == |b| && forall i :: 0 <= i < |a| ==> a[i].createdAt == b[i].createdAt
    ensures IsOldest(a, j) <==> IsOldest(b, j)
  {
  }

  /** What the backfill does not look at. */
  ghost predicate SameButHome(a: Admin, b: Admin) {
    a.(tenantId := b.tenantId) == b
  }

  /** Who ends up platform admin: whoever was one; the admin with the bootstrap e-mail; and, if
      there is neither, the oldest one. Everybody else keeps their role, or is owner if there was
      no role column. Identity stays, and with a tenant column so does the tenant. */
  lemma AdminsExactly(db: Db, s: Settings, ids: NewIds, j: nat)
    requires Upgradable(db) && DistinctIds(db.admins) && j < |db.admins|
    ensures var had, before, end := HadColumns(db), db.admins[j], Upgrade(db, s, ids).value;
            && |end.admins| == |db.admins|
            && end.admins[j].role == FinalRole(had, db.admins, s, j)
            && end.admins[j].id == before.id && end.admins[j].email == before.email
            && if had.home then end.admins[j].tenantId == before.tenantId
               else end.tenants != [] && end.admins[j].tenantId == Some(end.tenants[0].id)
  {
    hide Prepare, Backfill, Upgrade, Adopted, PromoteOldest, PromoteBootstrap, IsBootstrap, IsOldest;
    UpgradeIsBackfill(db, s, ids);
    var had, p := HadColumns(db), Prepare(db, s, ids);
    PreparedRows(db, s, ids);
    var adopted := Adopted(db, p, ids);
    AdoptedRows(db, p, ids);
    forall i | 0 <= i < |db.admins|
      ensures IsBootstrap(adopted.admins[i], s) <==> IsBootstrap(db.admins[i], s)
    {
      SameBootstrap(adopted.admins[i], db.admins[i], s);
    }
    BackfilledAdmins(adopted, s);
    PromotedRoles(adopted.admins, s, j);
    SameOldest(adopted.admins, db.admins, j);
    BackfillKeepsFirst(adopted, s);
  }

  lemma BackfilledAdmins(db: Db, s: Settings)
    ensures Backfill(db, s).admins == PromoteOldest(UpdateAll(db.admins, (a: Admin) => PromoteBootstrap(a, s)))
  {
    hide PromoteOldest, PromoteBootstrap;
  }

  lemma SameBootstrap(a: Admin, b: Admin, s: Settings)
    requires a.email == b.email
    ensures IsBootstrap(a, s) <==> IsBootstrap(b, s)
  {
  }

  lemma BackfillKeepsFirst(db: Db, s: Settings)
    ensures |Backfill(db, s).tenants| == |db.tenants|
    ensures forall i :: 0 <= i < |db.tenants| ==> Backfill(db, s).tenants[i].id == db.tenants[i].id
  {
    hide PromoteOldest, PromoteBootstrap, HomeOfPlatformAdmin, FreePlanId;
  }

  /** The database after orphaned admins were adopted, if they were. */
  function Adopted(db: Db, p: Db, ids: NewIds): Db {
    if !HasColumn(db, "admin_users", "tenant_id") && AnyOrphan(p.admins) then AdoptOrphans(p, ids) else p
  }

  lemma AdoptedRows(db: Db, p: Db, ids: NewIds)
    requires |p.admins| == |db.admins|
    requires forall j :: 0 <= j < |p.admins| ==> p.admins[j] == AdminWithColumns(HadColumns(db), db.admins[j])
    ensures var a, had := Adopted(db, p, ids), HadColumns(db);
            && |a.admins| == |db.admins| && a.plans == p.plans && a.columns == p.columns
            && a.tenants == (if Adopts(db) && p.tenants == []
                             then [Tenant(ids.tenantId, "cloud-industry", true, "active", true, None, None)]
                             else p.tenants)
            && (Adopts(db) ==> a.tenants != [])
            && forall j :: 0 <= j < |a.admins| ==>
                 && a.admins[j] == p.admins[j].(tenantId := a.admins[j].tenantId)
                 && a.admins[j].tenantId ==
                      if had.home || a.tenants == [] then p.admins[j].tenantId else Some(a.tenants[0].id)
  {
    if db.admins != [] {
      assert !HadColumns(db).home ==> Orphan(p.admins[0]);
    }
  }

  // ------------------------------------------------------------ tenants

  lemma {:induction false} FreePlanExactly(plans: seq<PlanRow>, i: nat)
    requires i < |plans| && plans[i].key == "free" && forall j :: 0 <= j < i ==> plans[j].key != "free"
    ensures FreePlanId(plans) == Some(plans[i].id)
  {
    if i > 0 {
      assert forall j :: 0 < j < |plans| ==> plans[j] == plans[1..][j - 1];
      FreePlanExactly(plans[1..], i - 1);
    }
  }

  lemma BackfilledTenant(db: Db, s: Settings, i: nat)
    requires i < |db.tenants|
    ensures var before, end := db.tenants[i], Backfill(db, s);
            && |end.tenants| == |db.tenants| && end.plans == db.plans
            && end.tenants[i] == before.(
                 status := if HasColumn(db, "tenants", "is_active") && !before.isActive && before.status == "active"
                           then "suspended" else before.status,
                 platformScope := before.platformScope || before.slug == "default"
                                  || HomeOfPlatformAdmin(before.id, end.admins),
                 planId := if before.planId.None? then FreePlanId(db.plans) else before.planId)
  {
    hide PromoteOldest, PromoteBootstrap, FreePlanId, HomeOfPlatformAdmin, HasColumn;
  }

  /** Which tenants end up platform-scope: whichever was; the one with the slug "default"; and
      every home of a platform admin. A tenant without a plan gets the free one; an inactive
      tenant of the old schema that counted as active is suspended; nothing else changes. */
  lemma TenantsExactly(db: Db, s: Settings, ids: NewIds, i: nat, f: nat)
    requires Upgradable(db) && i < |db.tenants|
    requires var plans := Upgrade(db, s, ids).value.plans;
             f < |plans| && plans[f].key == "free" && forall j :: 0 <= j < f ==> plans[j].key != "free"
    ensures var had, before, end := HadColumns(db), db.tenants[i], Upgrade(db, s, ids).value;
            && i < |end.tenants|
            && var after := end.tenants[i];
               && after.id == before.id && after.slug == before.slug
               && (after.platformScope <==>
                     || (had.scope && before.platformScope)
                     || before.slug == "default"
                     || exists j :: 0 <= j < |end.admins|
                          && end.admins[j].role == "platform_admin" && end.admins[j].tenantId == Some(before.id))
               && after.planId == (if had.plan && before.planId.Some? then before.planId else Some(end.plans[f].id))
               && after.status ==
                    (if HasColumn(db, "tenants", "is_active") && !before.isActive
                        && (had.status ==> before.status == "active")
                     then "suspended" else if had.status then before.status else "active")
  {
    hide Prepare, Backfill, Adopted, FreePlanId, HomeOfPlatformAdmin;
    var had, p := HadColumns(db), Prepare(db, s, ids);
    PreparedRows(db, s, ids);
    PrepareEstablishes(db, s, ids);
    AdoptedRows(db, p, ids);
    var adopted := Adopted(db, p, ids);
    UpgradeIsBackfill(db, s, ids);
    BackfilledTenant(adopted, s, i);
    var end := Backfill(adopted, s);
    FreePlanExactly(end.plans, f);
    HomeExactly(db.tenants[i].id, end.admins);
    assert HasColumn(adopted, "tenants", "is_active") <==> HasColumn(db, "tenants", "is_active") by {
      assert adopted.columns == p.columns;
    }
    hide HasColumn;
  }

  lemma UpgradeIsBackfill(db: Db, s: Settings, ids: NewIds)
    requires Upgradable(db)
    ensures Upgrade(db, s, ids) == Some(Backfill(Adopted(db, Prepare(db, s, ids), ids), s))
  {
    hide Prepare, Backfill, AdoptOrphans;
  }

  lemma HomeExactly(id: string, admins: seq<Admin>)
    ensures HomeOfPlatformAdmin(id, admins) <==>
            exists j :: 0 <= j < |admins| && admins[j].role == "platform_admin" && admins[j].tenantId == Some(id)
  {
  }

  // ------------------------------------------------------------ resources

  /** An app without a recorded CPU value is allotted the three defaults; every other resource
      keeps what it had. */
  lemma ResourcesExactly(db: Db, s: Settings, ids: NewIds, i: nat)
    requires Upgradable(db) && HasTable(db, "tenant_resources") && i < |db.resources|
    ensures var had, before, end := HadColumns(db), db.resources[i], Upgrade(db, s, ids).value;
            && i < |end.resources|
            && end.resources[i] ==
                 if before.kind == "app" && !(had.cpu && before.cpu.Some?)
                 then Resource("app", Some(s.cpu), Some(s.mem), Some(s.disk))
                 else WithColumns(had, before)
  {
    hide AddTenantColumns, AddAdminTenant, AddPlanColumns, AddRole, SeedPlans, PromoteOldest, PrepareResources;
    PreparedResources(db, s, ids);
  }
}
